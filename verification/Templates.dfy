/** The safe template engine (platform/workflow/template.go).

    A Go string is a byte string; a `char` here stands for one byte.  Every character the engine
    looks at is ASCII, so bytes and code points need no telling apart.

    `IsReference` is the regular expression read declaratively; `MatchReference` is a greedy
    scanner for it.  `MatchIsExact` says the two agree and that a reference starting at a given
    position is unique, so it does not matter which of several matches a regexp engine prefers. */
module Templates {
  import opened Wrappers

  type Vars = map<string, string>

  // ---------------------------------------------------------------- the reference pattern

  predicate IsWordChar(c: char) {
    'A' <= c <= 'Z' || 'a' <= c <= 'z' || '0' <= c <= '9' || c == '_'
  }

  predicate IsSpaceChar(c: char) {
    c in {' ', '\t', '\n', '\r', '\U{0C}'}
  }

  predicate IsPathChar(c: char) {
    IsWordChar(c) || c == '.'
  }

  predicate AllSpace(s: string) {
    forall i | 0 <= i < |s| :: IsSpaceChar(s[i])
  }

  /** One or more identifiers separated by single dots. */
  predicate IsDottedPath(p: string) {
    && p != ""
    && (forall i | 0 <= i < |p| :: IsPathChar(p[i]))
    && p[0] != '.' && p[|p| - 1] != '.'
    && (forall i | 0 <= i < |p| - 1 :: p[i] != '.' || p[i + 1] != '.')
  }

  /** `raw` is one complete reference `{{ path }}` to `path`. */
  ghost predicate IsReference(raw: string, path: string) {
    IsDottedPath(path) && exists a, b :: Spells(raw, a, path, b)
  }

  ghost predicate Spells(raw: string, a: string, path: string, b: string) {
    AllSpace(a) && AllSpace(b) && raw == "{{" + a + path + b + "}}"
  }

  // ---------------------------------------------------------------- the greedy scanner

  /** The end of the longest run of characters satisfying `p` that starts at `i`. */
  function RunEnd(s: string, i: nat, p: char -> bool): (j: nat)
    requires i <= |s|
    ensures i <= j <= |s|
    ensures forall k | i <= k < j :: p(s[k])
    ensures j < |s| ==> !p(s[j])
    decreases |s| - i
  {
    if i < |s| && p(s[i]) then RunEnd(s, i + 1, p) else i
  }

  lemma RunEndIs(s: string, i: nat, j: nat, p: char -> bool)
    requires i <= j <= |s|
    requires forall k | i <= k < j :: p(s[k])
    requires j < |s| ==> !p(s[j])
    ensures RunEnd(s, i, p) == j
  {
  }

  datatype Match = Match(length: nat, path: string)

  /** The reference that starts `s`, if one does. */
  function MatchReference(s: string): (m: Option<Match>)
    ensures m.Some? ==> 0 < m.value.length <= |s|
  {
    if |s| < 2 || s[0] != '{' || s[1] != '{' then None else
    var i := RunEnd(s, 2, IsSpaceChar);
    var j := RunEnd(s, i, IsPathChar);
    var k := RunEnd(s, j, IsSpaceChar);
    if IsDottedPath(s[i..j]) && k + 2 <= |s| && s[k] == '}' && s[k + 1] == '}'
    then Some(Match(k + 2, s[i..j]))
    else None
  }

  lemma MatchIsReference(s: string)
    requires MatchReference(s).Some?
    ensures IsReference(s[..MatchReference(s).value.length], MatchReference(s).value.path)
  {
    var i := RunEnd(s, 2, IsSpaceChar);
    var j := RunEnd(s, i, IsPathChar);
    var k := RunEnd(s, j, IsSpaceChar);
    SpelledBy(s, i, j, k);
    assert Spells(s[..k + 2], s[2..i], s[i..j], s[j..k]);
  }

  lemma SpelledBy(s: string, i: nat, j: nat, k: nat)
    requires 2 <= i <= j <= k <= |s| - 2
    requires s[0] == '{' && s[1] == '{' && s[k] == '}' && s[k + 1] == '}'
    ensures s[..k + 2] == "{{" + s[2..i] + s[i..j] + s[j..k] + "}}"
  {
  }

  lemma SpelledChars(raw: string, a: string, path: string, b: string)
    requires raw == "{{" + a + path + b + "}}"
    ensures var i := 2 + |a|; var j := i + |path|; var k := j + |b|;
      && |raw| == k + 2
      && raw[0] == '{' && raw[1] == '{' && raw[k] == '}' && raw[k + 1] == '}'
      && raw[2..i] == a && raw[i..j] == path && raw[j..k] == b
  {
  }

  lemma ScannerStopsAt(s: string, i: nat, j: nat, k: nat)
    requires 2 <= i < j <= k <= |s| - 2
    requires s[0] == '{' && s[1] == '{' && s[k] == '}' && s[k + 1] == '}'
    requires AllSpace(s[2..i]) && IsDottedPath(s[i..j]) && AllSpace(s[j..k])
    ensures MatchReference(s) == Some(Match(k + 2, s[i..j]))
  {
    assert forall x | 2 <= x < i :: s[x] == s[2..i][x - 2];
    assert forall x | i <= x < j :: s[x] == s[i..j][x - i];
    assert forall x | j <= x < k :: s[x] == s[j..k][x - j];
    RunEndIs(s, 2, i, IsSpaceChar);
    RunEndIs(s, i, j, IsPathChar);
    RunEndIs(s, j, k, IsSpaceChar);
  }

  lemma Within(s: string, n: nat, i: nat, j: nat)
    requires i <= j <= n <= |s|
    ensures s[..n][i..j] == s[i..j] && forall x | 0 <= x < n :: s[..n][x] == s[x]
  {
  }

  lemma ReferenceIsMatched(s: string, n: nat, path: string)
    requires n <= |s| && IsReference(s[..n], path)
    ensures MatchReference(s) == Some(Match(n, path))
  {
    hide MatchReference;
    var a, b :| Spells(s[..n], a, path, b);
    SpelledChars(s[..n], a, path, b);
    var i := 2 + |a|;
    var j := i + |path|;
    var k := j + |b|;
    Within(s, n, 2, i);
    Within(s, n, i, j);
    Within(s, n, j, k);
    ScannerStopsAt(s, i, j, k);
  }

  /** The scanner finds a reference exactly where the pattern has one, and there is only one. */
  lemma MatchIsExact(s: string, n: nat, path: string)
    ensures MatchReference(s) == Some(Match(n, path)) <==> n <= |s| && IsReference(s[..n], path)
  {
    if MatchReference(s) == Some(Match(n, path)) {
      MatchIsReference(s);
    }
    if n <= |s| && IsReference(s[..n], path) {
      ReferenceIsMatched(s, n, path);
    }
  }

  // ---------------------------------------------------------------- scanning a whole template

  datatype Piece = Literal(c: char) | Ref(raw: string, path: string)

  /** The first piece of a non-empty template: a reference if one starts there, else one character. */
  function NextPiece(tpl: string): (p: Piece)
    requires tpl != ""
    ensures p.Ref? ==> 0 < |p.raw| <= |tpl|
  {
    match MatchReference(tpl)
    case Some(m) => Ref(tpl[..m.length], m.path)
    case None => Literal(tpl[0])
  }

  function Width(p: Piece): nat {
    if p.Ref? then |p.raw| else 1
  }

  /** The leftmost non-overlapping references of a template, and the characters between them. */
  function Scan(tpl: string): seq<Piece>
    decreases |tpl|
  {
    if tpl == "" then [] else
    var p := NextPiece(tpl);
    [p] + Scan(tpl[Width(p)..])
  }

  function Print(pieces: seq<Piece>): string {
    if pieces == [] then "" else
    Text(pieces[0]) + Print(pieces[1..])
  }

  function Text(p: Piece): string {
    match p case Literal(c) => [c] case Ref(raw, _) => raw
  }

  /** Every `Ref` is a reference and no reference starts at a `Literal`. */
  ghost predicate Canonical(pieces: seq<Piece>) {
    pieces != [] ==>
      && (match pieces[0]
          case Literal(_) => forall n: nat, path | n <= |Print(pieces)| :: !IsReference(Print(pieces)[..n], path)
          case Ref(raw, path) => IsReference(raw, path))
      && Canonical(pieces[1..])
  }

  /** The first piece of a template is the text it covers, and is forced by the pattern. */
  lemma NextPieceIsForced(tpl: string)
    requires tpl != ""
    ensures var p := NextPiece(tpl);
      && Text(p) == tpl[..Width(p)]
      && (p.Ref? ==> IsReference(p.raw, p.path))
      && (p.Literal? ==> forall n: nat, path | n <= |tpl| :: !IsReference(tpl[..n], path))
  {
    if MatchReference(tpl).Some? {
      MatchIsReference(tpl);
    } else {
      forall n: nat, path | n <= |tpl| ensures !IsReference(tpl[..n], path) {
        MatchIsExact(tpl, n, path);
      }
    }
  }

  lemma CanonicalStep(p: Piece, later: seq<Piece>, tpl: string)
    requires Canonical(later) && Text(p) + Print(later) == tpl
    requires p.Ref? ==> IsReference(p.raw, p.path)
    requires p.Literal? ==> forall n: nat, path | n <= |tpl| :: !IsReference(tpl[..n], path)
    ensures Canonical([p] + later) && Print([p] + later) == tpl
  {
    assert ([p] + later)[1..] == later;
  }

  lemma {:induction false} ScanPrints(tpl: string)
    ensures Print(Scan(tpl)) == tpl && Canonical(Scan(tpl))
    decreases |tpl|
  {
    hide NextPiece, IsReference;
    if tpl != "" {
      var p := NextPiece(tpl);
      var rest := tpl[Width(p)..];
      ScanPrints(rest);
      NextPieceIsForced(tpl);
      assert tpl == tpl[..Width(p)] + rest;
      CanonicalStep(p, Scan(rest), tpl);
    }
  }

  /** A template splits into literals and references in exactly one way. */
  lemma {:induction false} ScanIsUnique(pieces: seq<Piece>, tpl: string)
    ensures Print(pieces) == tpl && Canonical(pieces) <==> pieces == Scan(tpl)
    decreases |pieces|
  {
    ScanPrints(tpl);
    if Print(pieces) == tpl && Canonical(pieces) && pieces != [] {
      var rest := Print(pieces[1..]);
      ScanIsUnique(pieces[1..], rest);
      match pieces[0]
      case Literal(c) =>
        assert tpl == [c] + rest && tpl[1..] == rest;
        if MatchReference(tpl).Some? {
          MatchIsReference(tpl);
          assert false;
        }
      case Ref(raw, path) =>
        assert tpl == raw + rest && tpl[..|raw|] == raw && tpl[|raw|..] == rest;
        MatchIsExact(tpl, |raw|, path);
    }
  }

  // ---------------------------------------------------------------- references and syntax

  function Refs(pieces: seq<Piece>): seq<string> {
    if pieces == [] then [] else
    (if pieces[0].Ref? then [pieces[0].path] else []) + Refs(pieces[1..])
  }

  /** The template with its references deleted; the literals on both sides of one become neighbours. */
  function Stripped(pieces: seq<Piece>): string {
    if pieces == [] then "" else
    (if pieces[0].Literal? then [pieces[0].c] else "") + Stripped(pieces[1..])
  }

  predicate HasLooseBrace(s: string) {
    exists i | 0 <= i < |s| - 1 :: s[i] == '{' && s[i + 1] == '{'
  }

  /** CheckTemplateSyntax accepts the template. */
  predicate SyntaxOk(tpl: string) {
    !HasLooseBrace(Stripped(Scan(tpl)))
  }

  lemma RefsStep(p: Piece, later: seq<Piece>)
    ensures Refs([p] + later) == (if p.Ref? then [p.path] else []) + Refs(later)
  {
    assert ([p] + later)[1..] == later;
  }

  method TemplateRefs(tpl: string) returns (refs: seq<string>)
    ensures refs == Refs(Scan(tpl))
  {
    refs := [];
    var rest := tpl;
    ghost var todo := Scan(tpl);
    while rest != ""
      invariant todo == Scan(rest) && refs + Refs(todo) == Refs(Scan(tpl))
      decreases |rest|
    {
      var p := NextPiece(rest);
      rest := rest[Width(p)..];
      RefsStep(p, Scan(rest));
      todo := Scan(rest);
      if p.Ref? {
        assert refs + ([p.path] + Refs(todo)) == (refs + [p.path]) + Refs(todo);
        refs := refs + [p.path];
      }
    }
  }

  // ---------------------------------------------------------------- rendering

  datatype RenderError = Malformed | Undefined(missing: seq<string>)

  function Emit(p: Piece, vars: Vars): string
    requires p.Ref? ==> p.path in vars
  {
    match p case Literal(c) => [c] case Ref(_, path) => vars[path]
  }

  /** The literals interleaved with the values of the references. */
  function Substitute(pieces: seq<Piece>, vars: Vars): string
    requires forall path <- Refs(pieces) :: path in vars
  {
    if pieces == [] then "" else
    Emit(pieces[0], vars) + Substitute(pieces[1..], vars)
  }

  function Missing(refs: seq<string>, vars: Vars): (missing: seq<string>)
    ensures missing == [] <==> forall path <- refs :: path in vars
    ensures forall path :: path in missing <==> path in refs && path !in vars
  {
    if refs == [] then [] else
    (if refs[0] in vars then [] else [refs[0]]) + Missing(refs[1..], vars)
  }

  ghost function Rendering(tpl: string, vars: Vars): Result<string, RenderError> {
    var pieces := Scan(tpl);
    if !SyntaxOk(tpl) then Failure(Malformed)
    else if Missing(Refs(pieces), vars) != [] then Failure(Undefined(Missing(Refs(pieces), vars)))
    else Success(Substitute(pieces, vars))
  }

  lemma MissingStep(p: Piece, later: seq<Piece>, vars: Vars)
    ensures Missing(Refs([p] + later), vars)
         == (if p.Ref? && p.path !in vars then [p.path] else []) + Missing(Refs(later), vars)
  {
    RefsStep(p, later);
    if p.Ref? {
      assert ([p.path] + Refs(later))[1..] == Refs(later);
    } else {
      assert [] + Refs(later) == Refs(later);
    }
  }

  /** `out` and `missing` are right so far, with the pieces `todo` of `all` still to be rendered. */
  ghost predicate Rendered(all: seq<Piece>, vars: Vars, out: string, missing: seq<string>, todo: seq<Piece>) {
    && missing + Missing(Refs(todo), vars) == Missing(Refs(all), vars)
    && (Missing(Refs(all), vars) == [] ==> out + Substitute(todo, vars) == Substitute(all, vars))
  }

  lemma SubstituteStep(p: Piece, later: seq<Piece>, vars: Vars)
    requires forall path <- Refs([p] + later) :: path in vars
    ensures (p.Ref? ==> p.path in vars) && forall path <- Refs(later) :: path in vars
    ensures Substitute([p] + later, vars) == Emit(p, vars) + Substitute(later, vars)
  {
    RefsStep(p, later);
    assert p.Ref? ==> p.path in Refs([p] + later);
    assert ([p] + later)[1..] == later;
  }

  lemma RenderedMissingPiece(all: seq<Piece>, vars: Vars, out: string, missing: seq<string>, p: Piece,
                             later: seq<Piece>)
    requires Rendered(all, vars, out, missing, [p] + later)
    requires p.Ref? && p.path !in vars
    ensures Rendered(all, vars, out, missing + [p.path], later)
  {
    hide Refs, Missing, Substitute;
    MissingStep(p, later, vars);
    var m := Missing(Refs(later), vars);
    assert missing + ([p.path] + m) == (missing + [p.path]) + m;
    assert (missing + ([p.path] + m))[|missing|] == p.path;
  }

  lemma RenderedEmittedPiece(all: seq<Piece>, vars: Vars, out: string, missing: seq<string>, p: Piece,
                             later: seq<Piece>)
    requires Rendered(all, vars, out, missing, [p] + later)
    requires p.Ref? ==> p.path in vars
    ensures Rendered(all, vars, out + Emit(p, vars), missing, later)
  {
    hide Refs, Missing, Substitute, Emit;
    MissingStep(p, later, vars);
    var m := Missing(Refs(later), vars);
    assert [] + m == m;
    if Missing(Refs(all), vars) == [] {
      SubstituteStep(p, later, vars);
      var e, s := Emit(p, vars), Substitute(later, vars);
      assert out + (e + s) == (out + e) + s;
    }
  }

  method RenderTemplate(tpl: string, vars: Vars) returns (r: Result<string, RenderError>)
    ensures r == Rendering(tpl, vars)
  {
    if !SyntaxOk(tpl) {
      return Failure(Malformed);
    }
    var out, missing, rest := "", [], tpl;
    ghost var todo := Scan(tpl);
    assert missing + Missing(Refs(todo), vars) == Missing(Refs(todo), vars);
    while rest != ""
      invariant todo == Scan(rest) && Rendered(Scan(tpl), vars, out, missing, todo)
      decreases |rest|
    {
      var p := NextPiece(rest);
      rest := rest[Width(p)..];
      todo := Scan(rest);
      if p.Ref? && p.path !in vars {
        RenderedMissingPiece(Scan(tpl), vars, out, missing, p, todo);
        missing := missing + [p.path];
      } else {
        RenderedEmittedPiece(Scan(tpl), vars, out, missing, p, todo);
        out := out + Emit(p, vars);
      }
    }
    assert missing + [] == missing && out + "" == out;
    if missing != [] {
      return Failure(Undefined(missing));
    }
    return Success(out);
  }

  /** Rendering succeeds exactly on well-formed templates whose every reference is defined. */
  lemma RenderSucceedsIff(tpl: string, vars: Vars)
    ensures Rendering(tpl, vars).Success? <==> SyntaxOk(tpl) && forall path <- Refs(Scan(tpl)) :: path in vars
  {
  }

  lemma {:induction false} SubstituteReadsRefsOnly(pieces: seq<Piece>, v: Vars, w: Vars)
    requires forall path <- Refs(pieces) :: path in v && path in w && v[path] == w[path]
    ensures Substitute(pieces, v) == Substitute(pieces, w)
  {
    if pieces != [] {
      SubstituteReadsRefsOnly(pieces[1..], v, w);
    }
  }

  lemma {:induction false} MissingReadsRefsOnly(refs: seq<string>, v: Vars, w: Vars)
    requires forall path <- refs :: path in v <==> path in w
    ensures Missing(refs, v) == Missing(refs, w)
  {
    if refs != [] {
      MissingReadsRefsOnly(refs[1..], v, w);
    }
  }

  /** The result depends on no variable the template does not name. */
  lemma RenderReadsRefsOnly(tpl: string, v: Vars, w: Vars)
    requires forall path <- Refs(Scan(tpl)) :: (path in v <==> path in w) && (path in v ==> v[path] == w[path])
    ensures Rendering(tpl, v) == Rendering(tpl, w)
  {
    MissingReadsRefsOnly(Refs(Scan(tpl)), v, w);
    if Missing(Refs(Scan(tpl)), v) == [] {
      SubstituteReadsRefsOnly(Scan(tpl), v, w);
    }
  }

  lemma {:induction false} RefsConcat(a: seq<Piece>, b: seq<Piece>)
    ensures Refs(a + b) == Refs(a) + Refs(b)
  {
    if a == [] {
      assert a + b == b;
    } else {
      assert (a + b)[1..] == a[1..] + b;
      RefsConcat(a[1..], b);
    }
  }

  lemma {:induction false} SubstituteConcat(a: seq<Piece>, b: seq<Piece>, vars: Vars)
    requires forall path <- Refs(a) + Refs(b) :: path in vars
    ensures forall path <- Refs(a + b) :: path in vars
    ensures Substitute(a + b, vars) == Substitute(a, vars) + Substitute(b, vars)
  {
    RefsConcat(a, b);
    if a == [] {
      assert a + b == b;
    } else {
      assert (a + b)[1..] == a[1..] + b;
      SubstituteConcat(a[1..], b, vars);
    }
  }

  /** Single pass: whatever a value contains, even a complete reference, reaches the output verbatim
      between the renderings of what stands before and after its reference. */
  lemma ValuesAreNotRescanned(tpl: string, vars: Vars, i: nat)
    requires Rendering(tpl, vars).Success? && i < |Scan(tpl)| && Scan(tpl)[i].Ref?
    ensures forall path <- Refs(Scan(tpl)[..i]) + Refs(Scan(tpl)[i + 1..]) + [Scan(tpl)[i].path] :: path in vars
    ensures Rendering(tpl, vars).value ==
            Substitute(Scan(tpl)[..i], vars) + vars[Scan(tpl)[i].path] + Substitute(Scan(tpl)[i + 1..], vars)
  {
    hide NextPiece, HasLooseBrace, Stripped;
    var ps := Scan(tpl);
    assert ps == ps[..i] + ps[i..] && ps[i..][1..] == ps[i + 1..];
    RefsConcat(ps[..i], ps[i..]);
    SubstituteConcat(ps[..i], ps[i..], vars);
  }

  // ---------------------------------------------------------------- one reference

  const UPPER := "ABCDEFGHIJKLMNOPQRSTUVWXYZ"

  const LOWER := "abcdefghijklmnopqrstuvwxyz"

  const DIGITS := "0123456789"

  lemma LowerCharacters(c: char)
    ensures 'a' <= c <= 'z' <==> c in LOWER
  {
    assert 'a' <= c <= 'z' ==> LOWER[c as int - 'a' as int] == c;
  }

  lemma UpperCharacters(c: char)
    ensures 'A' <= c <= 'Z' <==> c in UPPER
  {
    assert 'A' <= c <= 'Z' ==> UPPER[c as int - 'A' as int] == c;
  }

  lemma DigitCharacters(c: char)
    ensures '0' <= c <= '9' <==> c in DIGITS
  {
    assert '0' <= c <= '9' ==> DIGITS[c as int - '0' as int] == c;
  }

  /** The characters of an identifier and the blanks around it, one by one. */
  lemma PatternCharacters(c: char)
    ensures IsWordChar(c) <==> c in UPPER || c in LOWER || c in DIGITS || c == '_'
    ensures IsSpaceChar(c) <==> c == ' ' || c == '\t' || c == '\n' || c == '\r' || c as int == 12
  {
    LowerCharacters(c);
    UpperCharacters(c);
    DigitCharacters(c);
    hide UPPER, LOWER, DIGITS;
  }

  /** A template that is one reference renders to the value, or reports the path. */
  lemma OneReferenceRenders(a: string, path: string, b: string, vars: Vars)
    requires IsDottedPath(path) && AllSpace(a) && AllSpace(b)
    ensures var tpl := "{{" + a + path + b + "}}";
      && Refs(Scan(tpl)) == [path] && SyntaxOk(tpl)
      && Rendering(tpl, vars) == if path in vars then Success(vars[path]) else Failure(Undefined([path]))
  {
    var tpl := "{{" + a + path + b + "}}";
    assert Spells(tpl, a, path, b);
    assert tpl[..|tpl|] == tpl;
    MatchIsExact(tpl, |tpl|, path);
    assert tpl[|tpl|..] == "";
    assert Scan(tpl) == [Ref(tpl, path)];
    assert [Ref(tpl, path)][1..] == [];
    assert Stripped(Scan(tpl)) == "";
    assert Refs(Scan(tpl)) == [path];
    assert [path][1..] == [];
    if path in vars {
      assert Substitute([], vars) == "";
      assert vars[path] + "" == vars[path];
    }
  }

  lemma PlainReferenceRenders(path: string, vars: Vars)
    requires IsDottedPath(path)
    ensures var tpl := "{{" + path + "}}";
      && Refs(Scan(tpl)) == [path] && SyntaxOk(tpl)
      && Rendering(tpl, vars) == if path in vars then Success(vars[path]) else Failure(Undefined([path]))
  {
    hide *;
    OneReferenceRenders("", path, "", vars) by { NoBlanks(); }
    assert "{{" + "" + path + "" + "}}" == "{{" + path + "}}";
  }

  lemma NoBlanks()
    ensures AllSpace("")
  {
  }

  lemma LooseBraceIsSpelled(s: string)
    ensures HasLooseBrace(s) <==> exists a: string, b: string :: s == a + "{{" + b
  {
    if HasLooseBrace(s) {
      var i :| 0 <= i < |s| - 1 && s[i] == '{' && s[i + 1] == '{';
      assert s == s[..i] + "{{" + s[i + 2..];
    }
    if a, b :| s == a + "{{" + b {
      assert s[|a|] == '{' && s[|a| + 1] == '{';
    }
  }

  /** A text without opening braces is rendered as it is; with them and without a closing one it is malformed. */
  lemma TextWithoutReferences(tpl: string, vars: Vars)
    requires '}' !in tpl
    ensures Rendering(tpl, vars)
      == if exists a: string, b: string :: tpl == a + "{{" + b then Failure(Malformed) else Success(tpl)
  {
    LooseBraceIsSpelled(tpl);
    AllLiterals(tpl, vars);
  }

  lemma {:induction false} AllLiterals(tpl: string, vars: Vars)
    requires '}' !in tpl
    ensures Refs(Scan(tpl)) == [] && Stripped(Scan(tpl)) == tpl && Substitute(Scan(tpl), vars) == tpl
    decreases |tpl|
  {
    if tpl != "" {
      assert MatchReference(tpl).None?;
      assert NextPiece(tpl) == Literal(tpl[0]);
      AllLiterals(tpl[1..], vars);
      assert Scan(tpl) == [Literal(tpl[0])] + Scan(tpl[1..]);
      assert Scan(tpl)[1..] == Scan(tpl[1..]);
      assert tpl == [tpl[0]] + tpl[1..];
    }
  }
}
