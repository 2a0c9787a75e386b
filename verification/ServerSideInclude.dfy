/** The server-side-include expander of the administration web pages. */
module ServerSideInclude {
  import opened Paths
  import opened Text

  type Bytes = seq<char>

  const MAX_DEPTH: nat := 4
  const MAX_NAME: nat := 32
  const START_TAG: string := "<!--#include file="
  const END_TAG: string := "-->"
  const ROOT_NAME: string := "|wwwroot"
  const ROOT: string := "|wwwroot/"
  const BACKSLASH_ROOT: string := "|wwwroot\\"
  const BOM: Bytes := "\U{EF}\U{BB}\U{BF}"

  /** The outside world: what paths depend on, and the files. */
  datatype World = World(os: Os, file: string -> Option<Bytes>)

  // ---- String helpers ----

  predicate OccursAt(s: string, key: string, i: nat) {
    i + |key| <= |s| && s[i..i + |key|] == key
  }

  /** A C string ends at the first NUL. */
  function UpToNul(s: Bytes): (r: string)
    ensures '\0' !in r && r <= s
    ensures r == s || s[|r|] == '\0'
  {
    if s == [] || s[0] == '\0' then [] else [s[0]] + UpToNul(s[1..])
  }

  method SearchStrEx(s: string, key: string, start: nat) returns (r: Option<nat>)
    requires key != []
    ensures r.None? ==> forall j: nat | start <= j :: !OccursAt(s, key, j)
    ensures r.Some? ==> start <= r.value && OccursAt(s, key, r.value)
    ensures r.Some? ==> forall j: nat | start <= j < r.value :: !OccursAt(s, key, j)
  {
    if |s| <= start || |s| - start < |key| {
      return None;
    }
    for i := start to |s| - |key| + 1
      invariant forall j: nat | start <= j < i :: !OccursAt(s, key, j)
    {
      if s[i..i + |key|] == key {
        return Some(i);
      }
    }
    return None;
  }

  // ---- The grammar of a page ----

  /** A page is a sequence of literal bytes and include directives; `span` is a directive's own text. */
  datatype Piece = Literal(c: char) | Include(name: string, span: string)

  function Source(p: Piece): string {
    match p
    case Literal(c) => [c]
    case Include(_, span) => span
  }

  function SourceOf(ps: seq<Piece>): string {
    if ps == [] then [] else Source(ps[0]) + SourceOf(ps[1..])
  }

  /** The tag in any letter case, a quoted name shorter than 32 bytes, anything, the first end tag. */
  predicate IsDirective(span: string, name: string) {
    var n := |START_TAG|;
    var rest := n + 2 + |name|;
    && |name| < MAX_NAME
    && rest + |END_TAG| <= |span|
    && StartWith(span, START_TAG)
    && (span[n] == '"' || span[n] == '\'')
    && span[n + 1..rest - 1] == name
    && span[n] !in name
    && span[rest - 1] == span[n]
    && OccursAt(span, END_TAG, |span| - |END_TAG|)
    && forall j | rest <= j < |span| - |END_TAG| :: !OccursAt(span, END_TAG, j)
  }

  /** The first `e` bytes of the text are a directive that includes `name`. */
  predicate DirectivePrefix(text: string, name: string, e: nat) {
    e <= |text| && IsDirective(text[..e], name)
  }

  /** Every directive is taken where it begins, and every other byte is literal. */
  ghost predicate IsPage(text: string, ps: seq<Piece>)
    decreases |ps|
  {
    if ps == [] then text == []
    else
      && Source(ps[0]) != [] && Source(ps[0]) <= text
      && IsPage(text[|Source(ps[0])|..], ps[1..])
      && match ps[0]
         case Include(name, span) => IsDirective(span, name)
         case Literal(_) => forall name, e: nat :: !DirectivePrefix(text, name, e)
  }

  ghost function Pieces(text: string): (ps: seq<Piece>)
    ensures IsPage(text, ps)
    decreases |text|
  {
    if text == [] then []
    else if exists name, e: nat :: DirectivePrefix(text, name, e) then
      var name, e: nat :| DirectivePrefix(text, name, e);
      [Include(name, text[..e])] + Pieces(text[e..])
    else [Literal(text[0])] + Pieces(text[1..])
  }

  /** The same, said of the text itself: where the quotes and the end tag stand. */
  predicate DirectiveAt(text: string, b: nat, e: nat) {
    var n := |START_TAG|;
    && n < b < e - |END_TAG| && e <= |text| && b - (n + 1) < MAX_NAME
    && StartWith(text, START_TAG)
    && (text[n] == '"' || text[n] == '\'')
    && OccursAt(text, [text[n]], b) && (forall j | n < j < b :: !OccursAt(text, [text[n]], j))
    && OccursAt(text, END_TAG, e - |END_TAG|) && (forall j | b < j < e - |END_TAG| :: !OccursAt(text, END_TAG, j))
  }

  lemma OccursInPrefix(text: string, key: string, e: nat, j: nat)
    requires j + |key| <= e <= |text|
    ensures OccursAt(text, key, j) <==> OccursAt(text[..e], key, j)
  {
    assert text[..e][j..j + |key|] == text[j..j + |key|];
  }

  lemma PrefixToText(text: string, name: string, e: nat)
    requires DirectivePrefix(text, name, e)
    ensures DirectiveAt(text, |START_TAG| + 1 + |name|, e) && name == text[|START_TAG| + 1..][..|name|]
  {
    var n, b := |START_TAG|, |START_TAG| + 1 + |name|;
    var span := text[..e];
    assert text[..n] == span[..n];
    assert name == span[n + 1..b] == text[n + 1..][..|name|];
    forall j: nat | j + |END_TAG| <= e
      ensures OccursAt(text, END_TAG, j) <==> OccursAt(span, END_TAG, j)
    {
      OccursInPrefix(text, END_TAG, e, j);
    }
    forall j | n < j < b ensures !OccursAt(text, [text[n]], j) {
      assert text[j..j + 1] == [text[j]];
      assert text[j] == name[j - (n + 1)];
    }
    assert text[b..b + 1] == [text[b]];
  }

  lemma TextToPrefix(text: string, b: nat, e: nat)
    requires DirectiveAt(text, b, e)
    ensures DirectivePrefix(text, text[|START_TAG| + 1..b], e)
  {
    var n := |START_TAG|;
    var name := text[n + 1..b];
    var span := text[..e];
    assert text[..n] == span[..n];
    assert span[n + 1..b] == name;
    forall j: nat | j + |END_TAG| <= e
      ensures OccursAt(text, END_TAG, j) <==> OccursAt(span, END_TAG, j)
    {
      OccursInPrefix(text, END_TAG, e, j);
    }
    forall j | n < j <= b ensures OccursAt(text, [text[n]], j) <==> text[j] == text[n] {
      assert text[j..j + 1] == [text[j]];
    }
    assert forall k | 0 <= k < |name| :: name[k] == text[n + 1 + k];
  }

  lemma DirectiveIsUnique(text: string, name1: string, e1: nat, name2: string, e2: nat)
    requires DirectivePrefix(text, name1, e1) && DirectivePrefix(text, name2, e2)
    ensures name1 == name2 && e1 == e2
  {
    PrefixToText(text, name1, e1);
    PrefixToText(text, name2, e2);
  }

  /** The reading of a page is unique, so any way to find it gives the same answer. */
  lemma {:induction false} PageIsUnique(text: string, ps: seq<Piece>)
    requires IsPage(text, ps)
    ensures ps == Pieces(text)
    decreases |ps|
  {
    hide IsDirective;
    if ps != [] {
      var step := |Source(ps[0])|;
      PageIsUnique(text[step..], ps[1..]);
      match ps[0] {
        case Include(name, span) =>
          assert span == text[..step];
          assert DirectivePrefix(text, name, step);
          var qs := Pieces(text);
          assert qs[0].Include?;
          assert DirectivePrefix(text, qs[0].name, |qs[0].span|) by {
            assert qs[0].span == text[..|qs[0].span|];
          }
          DirectiveIsUnique(text, name, step, qs[0].name, |qs[0].span|);
        case Literal(_) =>
      }
      assert ps == [ps[0]] + ps[1..];
    }
  }

  /** No byte of a page is lost, moved or read twice. */
  lemma {:induction false} PiecesCoverThePage(text: string, ps: seq<Piece>)
    requires IsPage(text, ps)
    ensures SourceOf(ps) == text
    decreases |ps|
  {
    hide IsDirective, DirectivePrefix;
    if ps != [] {
      PiecesCoverThePage(text[|Source(ps[0])|..], ps[1..]);
    }
  }

  // ---- What a page expands to ----

  /** The file a directive names: relative to the page's directory, or to the root of the site. */
  function FullName(w: World, filename: string, name: string): string {
    var joined := if StartWith(name, "/") then ROOT + name[1..] else GetDirNameFromFilePath(w.os, filename) + "/" + name;
    var full := NormalizePath(w.os, joined);
    if !StartWith(full, ROOT) && !StartWith(full, BACKSLASH_ROOT) then ROOT + full else full
  }

  method FindFullName(w: World, filename: string, name: string) returns (full: string)
    ensures full == FullName(w, filename, name)
  {
    var joined;
    if StartWith(name, "/") {
      joined := ROOT + name[1..];
    } else {
      joined := GetDirNameFromFilePath(w.os, filename) + "/" + name;
    }
    full := NormalizePathW(w.os, joined);
    if !StartWith(full, ROOT) && !StartWith(full, BACKSLASH_ROOT) {
      full := ROOT + full;
    }
  }

  function SkipUtf8Bom(b: Bytes): Bytes { if BOM <= b then b[|BOM|..] else b }

  ghost function Expand(w: World, text: Bytes, filename: string, depth: nat): Bytes
    decreases if depth >= MAX_DEPTH then 0 else MAX_DEPTH - depth, 1, 0
  {
    if depth >= MAX_DEPTH || !EndWith(filename, ".html") then text
    else ExpandPieces(w, Pieces(UpToNul(text)), filename, depth)
  }

  ghost function ExpandPieces(w: World, ps: seq<Piece>, filename: string, depth: nat): Bytes
    requires depth < MAX_DEPTH
    decreases MAX_DEPTH - depth, 0, |ps|
  {
    if ps == [] then []
    else ExpandPiece(w, ps[0], filename, depth) + ExpandPieces(w, ps[1..], filename, depth)
  }

  ghost function ExpandPiece(w: World, p: Piece, filename: string, depth: nat): Bytes
    requires depth < MAX_DEPTH
    decreases MAX_DEPTH - depth, 0, 0
  {
    match p
    case Literal(c) => [c]
    case Include(name, _) =>
      var full := FullName(w, filename, name);
      match w.file(full)
      case None => []
      case Some(inner) => SkipUtf8Bom(Expand(w, inner, full, depth + 1))
  }

  // ---- The scanning loop ----

  lemma NoDirective(text: string)
    requires forall b, e: nat :: !DirectiveAt(text, b, e)
    ensures forall name, e: nat :: !DirectivePrefix(text, name, e)
  {
    forall name, e: nat ensures !DirectivePrefix(text, name, e) {
      if DirectivePrefix(text, name, e) {
        PrefixToText(text, name, e);
      }
    }
  }

  lemma OccursInSuffix(s: string, key: string, i: nat, j: nat)
    requires i <= |s|
    ensures OccursAt(s[i..], key, j) <==> OccursAt(s, key, i + j)
  {
    if i + j + |key| <= |s| {
      assert s[i..][j..j + |key|] == s[i + j..i + j + |key|];
    }
  }

  /** SearchStrEx, with its answer said of the text from `base` on. */
  method SearchFrom(s: string, key: string, base: nat, start: nat) returns (r: Option<nat>)
    requires key != [] && base <= |s| && base <= start
    ensures r.None? ==> forall j: nat | start - base <= j :: !OccursAt(s[base..], key, j)
    ensures r.Some? ==> start <= r.value && OccursAt(s[base..], key, r.value - base)
    ensures r.Some? ==> forall j: nat | start - base <= j < r.value - base :: !OccursAt(s[base..], key, j)
  {
    r := SearchStrEx(s, key, start);
    forall j: nat ensures OccursAt(s[base..], key, j) <==> OccursAt(s, key, base + j) {
      OccursInSuffix(s, key, base, j);
    }
  }

  /** Tries to read a directive that begins at byte `i`; gives its name and the index just after it. */
  method ReadDirective(s: string, i: nat) returns (found: Option<(string, nat)>)
    requires i < |s|
    ensures found.Some? ==> i < found.value.1 <= |s| && DirectivePrefix(s[i..], found.value.0, found.value.1 - i)
    ensures found.None? ==> forall name, e: nat :: !DirectivePrefix(s[i..], name, e)
  {
    hide StrCmpi, OccursAt, IsDirective;
    found := None;
    ghost var text := s[i..];
    if StartWith(s[i..], START_TAG) {
      var a := i + |START_TAG|;
      if a < |s| && (s[a] == '"' || s[a] == '\'') {
        var b := SearchFrom(s, [s[a]], i, a + 1);
        if b.Some? && b.value - (a + 1) < MAX_NAME {
          var x := SearchFrom(s, END_TAG, i, b.value + 1);
          if x.Some? {
            found := Some((s[a + 1..b.value], x.value + |END_TAG|));
            TextToPrefix(text, b.value - i, x.value + |END_TAG| - i);
            assert s[a + 1..b.value] == text[|START_TAG| + 1..b.value - i];
            return;
          }
        }
      }
    }
    NoDirective(text);
  }

  method AdminWebProcessServerSideInclude(w: World, src: Option<Bytes>, filename: Option<string>, depth: nat)
    returns (ret: Option<Bytes>)
    ensures src.None? || filename.None? ==> ret == src
    ensures src.Some? && filename.Some? ==> ret == Some(Expand(w, src.value, filename.value, depth))
    decreases if depth >= MAX_DEPTH then 0 else MAX_DEPTH - depth, 1
  {
    if src.None? || filename.None? || depth >= MAX_DEPTH || !EndWith(filename.value, ".html") {
      return src;
    }
    var out := ExpandText(w, UpToNul(src.value), filename.value, depth);
    return Some(out);
  }

  /** The scanning loop of the expander. */
  method ExpandText(w: World, str: string, filename: string, depth: nat) returns (out: Bytes)
    requires depth < MAX_DEPTH
    ensures out == ExpandPieces(w, Pieces(str), filename, depth)
    decreases MAX_DEPTH - depth, 0
  {
    hide DirectivePrefix, IsPage, FullName, SkipUtf8Bom, Pieces, Expand, ExpandPieces;
    out := [];
    var i := 0;
    assert str[0..] == str;
    while i < |str|
      invariant i <= |str|
      invariant out + ExpandPieces(w, Pieces(str[i..]), filename, depth)
             == ExpandPieces(w, Pieces(str), filename, depth)
      decreases |str| - i
    {
      ghost var ps := Pieces(str[i..]);
      var directive := ReadDirective(str, i);
      if directive.Some? {
        var (name, next) := directive.value;
        NextIsInclude(str, i, name, next);
        ExpandFirst(w, ps, filename, depth);
        var full := FindFullName(w, filename, name);
        var inner := AdminWebProcessServerSideInclude(w, w.file(full), Some(full), depth + 1);
        ghost var was := out;
        if inner.Some? {
          out := out + SkipUtf8Bom(inner.value);
        }
        assert out == was + ExpandPiece(w, ps[0], filename, depth);
        i := next;
      } else {
        NextIsLiteral(str, i);
        ExpandFirst(w, ps, filename, depth);
        out := out + [str[i]];
        i := i + 1;
      }
      assert Pieces(str[i..]) == ps[1..];
    }
    assert str[i..] == [];
    ExpandNothing(w, filename, depth);
  }

  lemma ExpandFirst(w: World, ps: seq<Piece>, filename: string, depth: nat)
    requires depth < MAX_DEPTH && ps != []
    ensures ExpandPieces(w, ps, filename, depth)
         == ExpandPiece(w, ps[0], filename, depth) + ExpandPieces(w, ps[1..], filename, depth)
  {
  }

  lemma ExpandNothing(w: World, filename: string, depth: nat)
    requires depth < MAX_DEPTH
    ensures ExpandPieces(w, Pieces([]), filename, depth) == []
  {
  }

  lemma NextIsInclude(str: string, i: nat, name: string, next: nat)
    requires i < next <= |str| && DirectivePrefix(str[i..], name, next - i)
    ensures var ps := Pieces(str[i..]); ps != [] && ps[0] == Include(name, str[i..next]) && ps[1..] == Pieces(str[next..])
  {
    hide IsDirective, Pieces;
    var text := str[i..];
    var page := [Include(name, str[i..next])] + Pieces(str[next..]);
    assert text[..next - i] == str[i..next] && text[next - i..] == str[next..];
    assert page[1..] == Pieces(str[next..]);
    PageIsUnique(text, page);
  }

  lemma NextIsLiteral(str: string, i: nat)
    requires i < |str| && forall name, e: nat :: !DirectivePrefix(str[i..], name, e)
    ensures var ps := Pieces(str[i..]); ps != [] && ps[0] == Literal(str[i]) && ps[1..] == Pieces(str[i + 1..])
  {
    hide IsDirective, Pieces, DirectivePrefix;
    var text := str[i..];
    var page := [Literal(str[i])] + Pieces(str[i + 1..]);
    assert text[1..] == str[i + 1..];
    assert page[1..] == Pieces(str[i + 1..]);
    PageIsUnique(text, page);
  }

  // ---- What follows for readers of a page ----

  /** Wherever a page and its directives point, only files under the root of the site are read: the name
      of the file begins with the root, and no component of it leads up again. */
  lemma IncludesStayUnderTheRoot(w: World, filename: string, name: string)
    ensures var ts := Tokens(FullName(w, filename, name)); ts != [] && SameName(ts[0], ROOT_NAME) && NoDots(ts)
  {
    var joined := if StartWith(name, "/") then ROOT + name[1..] else GetDirNameFromFilePath(w.os, filename) + "/" + name;
    NormalizedHasNoDots(w.os, joined);
    hide NormalizePath, GetDirNameFromFilePath;
    var full := NormalizePath(w.os, joined);
    hide Tokens, NoDots, SameName;
    if StartWith(full, ROOT) {
      RootIsFirst(full, ROOT);
    } else if StartWith(full, BACKSLASH_ROOT) {
      RootIsFirst(full, BACKSLASH_ROOT);
    } else {
      PrefixedWithRoot(full);
    }
  }

  lemma PrefixedWithRoot(full: string)
    requires NoDots(Tokens(full))
    ensures var ts := Tokens(ROOT + full); ts != [] && SameName(ts[0], ROOT_NAME) && NoDots(ts)
  {
    RootShape(ROOT);
    assert ROOT_NAME + "/" == ROOT;
    assert "/"[0] == '/';
    TokensBeforeSep(ROOT_NAME, "/", full);
    hide Tokens, SameName;
    assert SameName(ROOT_NAME, ROOT_NAME) by { SameNames(ROOT_NAME); }
    PlainFirst(ROOT_NAME, Tokens(full));
  }

  lemma SameNames(s: string)
    ensures SameName(s, s)
  {
  }

  lemma PlainFirst(t: string, ts: seq<string>)
    requires |t| > 2 && NoDots(ts)
    ensures NoDots([t] + ts)
  {
  }

  predicate IsRoot(root: string) { root == ROOT || root == BACKSLASH_ROOT }

  lemma RootShape(root: string)
    requires IsRoot(root)
    ensures |root| == |ROOT_NAME| + 1 && root[..|ROOT_NAME|] == ROOT_NAME && IsSep(root[|ROOT_NAME|])
    ensures SepFree(ROOT_NAME) && ROOT_NAME != []
  {
  }

  /** A name that starts with the root, in any letter case, has it as its first component. */
  lemma RootIsFirst(full: string, root: string)
    requires IsRoot(root) && StartWith(full, root) && NoDots(Tokens(full))
    ensures Tokens(full) != [] && SameName(Tokens(full)[0], ROOT_NAME)
  {
    RootShape(root);
    StrCmpiZeroMeansSameName(full[..|root|], root);
    FirstComponent(full, root, |root| - 1);
  }

  lemma FirstComponent(full: string, root: string, n: nat)
    requires 0 < n && |root| == n + 1 <= |full| && SameName(full[..n + 1], root)
    requires SepFree(root[..n]) && IsSep(root[n])
    ensures Tokens(full) != [] && SameName(Tokens(full)[0], root[..n])
  {
    var head := full[..n + 1];
    FoldedAt(head, root);
    FoldOfPrefix(head, n);
    FoldOfPrefix(root, n);
    assert head[..n] == full[..n];
    hide Fold, ToUpper;
    forall i | 0 <= i <= n ensures IsSep(full[i]) <==> IsSep(root[i]) {
      assert head[i] == full[i];
      SepsAreCaseless(full[i], root[i]);
    }
    assert SepFree(full[..n]) by {
      assert forall i | 0 <= i < n :: full[..n][i] == full[i] && root[..n][i] == root[i];
    }
    TokenLengthIs(full, n);
    assert !IsSep(full[0]) by { assert full[..n][0] == full[0]; }
  }

  lemma SepsAreCaseless(c: char, d: char)
    requires ToUpper(c) == ToUpper(d)
    ensures IsSep(c) <==> IsSep(d)
  {
  }

  lemma {:induction false} FoldedAt(a: string, b: string)
    requires SameName(a, b)
    ensures |a| == |b| && forall i | 0 <= i < |a| :: ToUpper(a[i]) == ToUpper(b[i])
    decreases |a|
  {
    assert |Fold(a)| == |Fold(b)|;
    if a != [] {
      assert Fold(a)[0] == ToUpper(a[0]) && Fold(b)[0] == ToUpper(b[0]);
      assert Fold(a)[1..] == Fold(a[1..]) && Fold(b)[1..] == Fold(b[1..]);
      FoldedAt(a[1..], b[1..]);
      forall i | 0 <= i < |a| ensures ToUpper(a[i]) == ToUpper(b[i]) {
        if i > 0 {
          assert a[1..][i - 1] == a[i] && b[1..][i - 1] == b[i];
        }
      }
    }
  }

  lemma {:induction false} FoldOfPrefix(s: string, n: nat)
    requires n <= |s|
    ensures Fold(s[..n]) == Fold(s)[..n]
    decreases n
  {
    if n > 0 {
      FoldOfPrefix(s[1..], n - 1);
      assert s[..n][1..] == s[1..][..n - 1];
      assert Fold(s)[..n] == [ToUpper(s[0])] + Fold(s[1..])[..n - 1];
    }
  }

  /** A page that contains no directive is copied byte for byte. */
  lemma PlainPageIsCopied(w: World, text: Bytes, filename: string, depth: nat)
    requires '\0' !in text
    requires forall i: nat, name, e: nat | i <= |text| :: !DirectivePrefix(text[i..], name, e)
    ensures Expand(w, text, filename, depth) == text
  {
    if depth < MAX_DEPTH && EndWith(filename, ".html") {
      assert UpToNul(text) == text;
      assert text[0..] == text;
      PlainTail(w, text, 0, filename, depth);
    }
  }

  lemma {:induction false} PlainTail(w: World, text: string, i: nat, filename: string, depth: nat)
    requires i <= |text| && depth < MAX_DEPTH
    requires forall k: nat, name, e: nat | k <= |text| :: !DirectivePrefix(text[k..], name, e)
    ensures ExpandPieces(w, Pieces(text[i..]), filename, depth) == text[i..]
    decreases |text| - i
  {
    if i < |text| {
      NextIsLiteral(text, i);
      PlainTail(w, text, i + 1, filename, depth);
      assert text[i..] == [text[i]] + text[i + 1..];
    }
  }

  function Literals(text: string): seq<Piece> {
    seq(|text|, i requires 0 <= i < |text| => Literal(text[i]))
  }

  function Repeat(text: string, n: nat): string {
    if n == 0 then [] else text + Repeat(text, n - 1)
  }

  lemma {:induction false} ExpandAppends(w: World, ps: seq<Piece>, qs: seq<Piece>, filename: string, depth: nat)
    requires depth < MAX_DEPTH
    ensures ExpandPieces(w, ps + qs, filename, depth)
         == ExpandPieces(w, ps, filename, depth) + ExpandPieces(w, qs, filename, depth)
    decreases |ps|
  {
    hide ExpandPiece;
    if ps == [] {
      assert ps + qs == qs;
    } else {
      ExpandAppends(w, ps[1..], qs, filename, depth);
      assert (ps + qs)[1..] == ps[1..] + qs;
    }
  }

  lemma {:induction false} ExpandLiterals(w: World, text: string, filename: string, depth: nat)
    requires depth < MAX_DEPTH
    ensures ExpandPieces(w, Literals(text), filename, depth) == text
    decreases |text|
  {
    if text != [] {
      assert Literals(text)[1..] == Literals(text[1..]);
      ExpandLiterals(w, text[1..], filename, depth);
    }
  }

  /** A page that includes itself still has an expansion: its surroundings repeat once a level, and
      the innermost copy, at the depth limit, is left unexpanded. */
  lemma {:induction false} CyclicIncludeUnrollsToTheLimit(
      w: World, text: Bytes, filename: string, depth: nat, pre: string, name: string, span: string, post: string)
    requires depth <= MAX_DEPTH && EndWith(filename, ".html") && '\0' !in text
    requires Pieces(text) == Literals(pre) + [Include(name, span)] + Literals(post)
    requires pre != [] && pre[0] != BOM[0]
    requires FullName(w, filename, name) == filename && w.file(filename) == Some(text)
    ensures Expand(w, text, filename, depth) == Repeat(pre, MAX_DEPTH - depth) + text + Repeat(post, MAX_DEPTH - depth)
    decreases MAX_DEPTH - depth
  {
    hide IsDirective, FullName, EndWith, IsPage, Pieces, Literals, Repeat, ExpandPieces;
    RepeatNone(pre);
    RepeatNone(post);
    if depth < MAX_DEPTH {
      CyclicIncludeUnrollsToTheLimit(w, text, filename, depth + 1, pre, name, span, post);
      var inner := Expand(w, text, filename, depth + 1);
      StartsWithPre(text, pre, name, span, post);
      SurroundedStarts(pre, text, post, MAX_DEPTH - depth - 1);
      assert UpToNul(text) == text;
      ExpandAround(w, filename, depth, pre, name, span, post, inner);
      OneMoreLevel(pre, text, post, MAX_DEPTH - depth - 1);
      assert Expand(w, text, filename, depth) == pre + inner + post;
    }
  }

  lemma RepeatNone(text: string)
    ensures Repeat(text, 0) == []
  {
  }

  lemma SurroundedStarts(pre: string, text: string, post: string, n: nat)
    requires pre != [] && text != [] && text[0] == pre[0]
    ensures (Repeat(pre, n) + text + Repeat(post, n))[0] == pre[0]
  {
  }

  lemma OneMoreLevel(pre: string, text: string, post: string, n: nat)
    ensures pre + (Repeat(pre, n) + text + Repeat(post, n)) + post == Repeat(pre, n + 1) + text + Repeat(post, n + 1)
  {
    RepeatAtEnd(post, n);
    assert pre + (Repeat(pre, n) + text + Repeat(post, n)) + post
        == (pre + Repeat(pre, n)) + text + (Repeat(post, n) + post);
  }

  lemma ExpandAround(w: World, filename: string, depth: nat, pre: string, name: string, span: string, post: string, inner: Bytes)
    requires depth < MAX_DEPTH
    requires ExpandPiece(w, Include(name, span), filename, depth) == inner
    ensures ExpandPieces(w, Literals(pre) + [Include(name, span)] + Literals(post), filename, depth) == pre + inner + post
  {
    hide ExpandPiece, Literals;
    var own := Include(name, span);
    ExpandAppends(w, Literals(pre) + [own], Literals(post), filename, depth);
    ExpandAppends(w, Literals(pre), [own], filename, depth);
    assert [own][1..] == [];
    ExpandLiterals(w, pre, filename, depth);
    ExpandLiterals(w, post, filename, depth);
  }

  lemma StartsWithPre(text: string, pre: string, name: string, span: string, post: string)
    requires Pieces(text) == Literals(pre) + [Include(name, span)] + Literals(post) && pre != []
    ensures text != [] && text[0] == pre[0]
  {
    assert Pieces(text)[0] == Literal(pre[0]);
  }

  lemma {:induction false} RepeatAtEnd(text: string, n: nat)
    ensures Repeat(text, n + 1) == Repeat(text, n) + text
  {
    if n > 0 {
      RepeatAtEnd(text, n - 1);
    }
  }
}
