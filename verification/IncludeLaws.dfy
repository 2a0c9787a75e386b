/** Which file an include directive names, said of the components of the paths. */
module IncludeLaws {
  import opened Text
  import opened Paths
  import opened PathLaws
  import opened ServerSideInclude

  /** A directory of the site: the root, or something under it, without dots. */
  predicate IsSiteDir(d: string) { IsUnder(ROOT_NAME, d) }

  predicate IsUnder(root: string, d: string) {
    root <= d && (|d| > |root| ==> IsSep(d[|root|])) && EndsInName(d) && NoDots(Tokens(d))
  }

  lemma RootName()
    ensures |ROOT_NAME| == 8 && ROOT_NAME[0] == '|' && ROOT_NAME[1] == 'w' && ROOT_NAME[7] == 't' && SepFree(ROOT_NAME)
    ensures ROOT == ROOT_NAME + "/" && BACKSLASH_ROOT == ROOT_NAME + "\\"
  {
  }

  lemma SiteDirBegins(d: string)
    requires IsSiteDir(d)
    ensures Tokens(d) != [] && Tokens(d)[0] == ROOT_NAME && AreNames(Tokens(d))
    ensures !BeginsWithDots(d) && !BeginsWithTilde(d) && !IsSep(d[0]) && !IsBlank(d[0]) && |d| >= 2 && d[1] != ':'
  {
    RootName();
    hide EndsInName, Tokens;
    FirstTokenIs(d, ROOT_NAME);
    TokensAreNames(d);
    FirstChars(d, ROOT_NAME);
  }

  lemma FirstTokenIs(d: string, name: string)
    requires name != [] && SepFree(name) && name <= d && (|d| > |name| ==> IsSep(d[|name|]))
    ensures Tokens(d) != [] && Tokens(d)[0] == name
  {
    assert d[0] == name[0];
    TokenLengthIs(d, |name|);
  }

  lemma FirstChars(d: string, root: string)
    requires root <= d && |root| == 8 && root[0] == '|' && root[1] == 'w'
    ensures !BeginsWithDots(d) && !BeginsWithTilde(d) && !IsSep(d[0]) && !IsBlank(d[0]) && |d| >= 2 && d[1] != ':'
  {
    assert d[0] == root[0] && d[1] == root[1];
  }

  // ---- The directory of a page ----

  lemma {:induction false} BeforeLastSepIs(d: string, c: char, f: string)
    requires IsSep(c) && SepFree(f)
    ensures BeforeLastSep(d + ([c] + f)) == d
    decreases |f|
  {
    var s := d + ([c] + f);
    if f == [] {
      assert s[..|s| - 1] == d;
    } else {
      assert s[..|s| - 1] == d + ([c] + f[..|f| - 1]);
      assert s[|s| - 1] == f[|f| - 1];
      BeforeLastSepIs(d, c, f[..|f| - 1]);
    }
  }

  lemma DirOfPage(os: Os, d: string, c: char, f: string)
    requires d != [] && IsSep(c) && f != [] && SepFree(f)
    ensures GetDirNameFromFilePath(os, d + ([c] + f)) == NormalizePath(os, d)
  {
    var s := d + ([c] + f);
    assert s[|s| - 1] == f[|f| - 1];
    BeforeLastSepIs(d, c, f);
  }

  lemma {:induction false} LastTokenEnds(s: string)
    requires s != [] && !IsSep(s[|s| - 1])
    ensures var ts := Tokens(s); ts != [] && ts[|ts| - 1] != [] && ts[|ts| - 1][|ts[|ts| - 1]| - 1] == s[|s| - 1]
    decreases |s|
  {
    if IsSep(s[0]) {
      LastTokenEnds(s[1..]);
    } else {
      var n := TokenLength(s);
      FirstTokenSplits(s, n);
      if n < |s| {
        hide Tokens;
        LastTokenEnds(s[n..]);
      } else {
        assert s[n..] == [] && s[..n] == s && Tokens(s[n..]) == [];
        hide Tokens;
      }
    }
  }

  lemma {:induction false} JoinEnds(ts: seq<string>)
    requires AreNames(ts) && ts != []
    ensures var s, last := Join(ts), ts[|ts| - 1];
            ts[0] != [] && last != [] && s != [] && s[0] == ts[0][0] && s[|s| - 1] == last[|last| - 1] && ts[0] <= s
            && (if |ts| > 1 then |s| > |ts[0]| && s[|ts[0]|] == '/' else s == ts[0])
  {
    assert ts[0] in ts;
    if |ts| > 1 {
      var us := ts[1..];
      assert AreNames(us) by { assert forall t <- us :: t in ts; }
      JoinEnds(us);
      assert us[|us| - 1] == ts[|ts| - 1];
      assert Join(ts) == ts[0] + "/" + Join(us);
      hide *;
      EndsOfBoth(ts[0], Join(us));
    }
  }

  lemma EndsOfBoth(t: string, r: string)
    requires t != [] && r != []
    ensures var s := t + "/" + r;
            s[0] == t[0] && s[|s| - 1] == r[|r| - 1] && t <= s && |s| > |t| && s[|t|] == '/'
  {
  }

  /** The result of normalizing such a path: its names, joined. */
  lemma SitePath(os: Os, path: string, ns: seq<string>)
    requires Prefix(os, Taken(os, path)) == "" && Stack(PathTokens(os, Taken(os, path)), DoubleSlash(Taken(os, path))) == ns
    ensures NormalizePath(os, path) == ConvertPath(os, Join(ns))
  {
    StackOfTaken(os, path);
    hide *;
    assert "" + Join(ns) == Join(ns);
  }

  lemma SiteDirIsTaken(os: Os, d: string)
    requires IsSiteDir(d)
    ensures var p := Taken(os, d);
            Prefix(os, p) == "" && !DoubleSlash(p) && Stack(PathTokens(os, p), false) == Tokens(d) == PathTokens(os, p)
  {
    SiteDirBegins(d);
    PlainIsTaken(os, d);
    ConvertKeepsTokens(os, d);
    Converted(os, d);
    var p := ConvertPath(os, d);
    HowItBegins(p);
    hide StartWith, Tokens, Taken, ConvertPath, IsSiteDir;
    assert !IsSep(p[0]) && p[1] != ':';
    assert [] + Tokens(d) == Tokens(d);
    PlainNamesStay([], Tokens(d), false);
  }

  lemma SiteDirNormalized(os: Os, d: string)
    requires IsSiteDir(d)
    ensures var n := NormalizePath(os, d); IsSiteDir(n) && Tokens(n) == Tokens(d)
  {
    SiteDirBegins(d);
    SiteDirIsTaken(os, d);
    hide *;
    SitePath(os, d, Tokens(d));
    RootName();
    DirNormalized(os, ROOT_NAME, d);
  }

  lemma DirNormalized(os: Os, root: string, d: string)
    requires IsUnder(root, d) && Tokens(d) != [] && Tokens(d)[0] == root && AreNames(Tokens(d)) && SepFree(root) && |root| > 1
    ensures var n := ConvertPath(os, Join(Tokens(d))); IsUnder(root, n) && Tokens(n) == Tokens(d)
  {
    var s := Join(Tokens(d));
    hide Tokens, Join, IsBlank, SepFree;
    JoinEnds(Tokens(d));
    LastTokenEnds(d);
    TokensOfJoin(Tokens(d));
    ConvertKeepsTokens(os, s);
    BeginningConverted(os, s, root);
    assert s[|s| - 1] == d[|d| - 1] && s[0] == d[0];
    EndConverted(os, s);
  }

  lemma BeginningConverted(os: Os, s: string, root: string)
    requires SepFree(root) && root <= s && (|s| > |root| ==> IsSep(s[|root|]))
    ensures var n := ConvertPath(os, s); root <= n && (|n| > |root| ==> IsSep(n[|root|]))
  {
    Converted(os, s);
    assert forall i | 0 <= i < |root| :: s[i] == root[i];
  }

  lemma EndConverted(os: Os, s: string)
    requires EndsInName(s)
    ensures EndsInName(ConvertPath(os, s))
  {
    Converted(os, s);
  }

  // ---- What a directive names ----

  /** `k` times "..". */
  function Ups(k: nat): seq<string> { if k == 0 then [] else [".."] + Ups(k - 1) }

  lemma {:induction false} UpsPop(ts: seq<string>, k: nat)
    requires k <= |ts| && Stack(ts, false) == ts
    ensures Stack(ts + Ups(k), false) == ts[..|ts| - k]
    decreases k
  {
    if k == 0 {
      assert ts + [] == ts;
    } else {
      UpsEnd(k - 1);
      assert ts + (Ups(k - 1) + [".."]) == (ts + Ups(k - 1)) + [".."];
      StackOfOneMore(ts + Ups(k - 1), "..", false);
      hide Stack;
      UpsPop(ts, k - 1);
    }
  }

  lemma {:induction false} UpsEnd(k: nat)
    ensures Ups(k + 1) == Ups(k) + [".."]
  {
    if k > 0 {
      UpsEnd(k - 1);
    }
  }

  lemma KeyStarts(s: string, key: string)
    requires key != [] && key <= s
    ensures StartWith(s, key)
  {
    assert s[..|key|] == key;
    StrCmpiZeroMeansSameName(key, key);
  }

  /** A path whose names begin with the root is found to be under it. */
  lemma RootedPath(os: Os, ns: seq<string>)
    requires AreNames(ns) && |ns| > 1 && ns[0] == ROOT_NAME
    ensures var full := ConvertPath(os, Join(ns));
            (StartWith(full, ROOT) || StartWith(full, BACKSLASH_ROOT)) && Tokens(full) == ns
  {
    RootName();
    TokensOfJoin(ns);
    ConvertKeepsTokens(os, Join(ns));
    JoinEnds(ns);
    RootedBeginning(os, Join(ns), ROOT_NAME);
    var full := ConvertPath(os, Join(ns));
    hide StartWith, Tokens, ConvertPath, Join;
    if ROOT <= full {
      KeyStarts(full, ROOT);
    } else {
      KeyStarts(full, BACKSLASH_ROOT);
    }
  }

  lemma RootedBeginning(os: Os, s: string, root: string)
    requires root <= s && |s| > |root| && s[|root|] == '/' && SepFree(root)
    ensures var full := ConvertPath(os, s); root + "/" <= full || root + "\\" <= full
  {
    Converted(os, s);
    var full := ConvertPath(os, s);
    assert forall i | 0 <= i < |root| :: s[i] == root[i];
    assert full[..|root|] == root;
  }

  /** In a directory of the site, a name without a leading slash is taken from that directory: after `k` times
      "..", fewer than there are components, come the other components of the name. */
  lemma RelativeInclude(w: World, d: string, c: char, f: string, name: string, k: nat, us: seq<string>)
    requires IsSiteDir(d) && IsSep(c) && f != [] && SepFree(f)
    requires name != [] && name[0] != '/' && !IsBlank(name[|name| - 1])
    requires Tokens(name) == Ups(k) + us && NoDots(us) && us != [] && k < |Tokens(d)|
    ensures Tokens(FullName(w, d + ([c] + f), name)) == Tokens(d)[..|Tokens(d)| - k] + us
  {
    var n := NormalizePath(w.os, d);
    hide *;
    IsRelative(name);
    SiteDirBegins(d);
    DirOfPage(w.os, d, c, f);
    SiteDirNormalized(w.os, d);
    IncludeInDir(w.os, n, name, k, us);
    RelativeFullName(w, d + ([c] + f), name, n);
  }

  lemma IncludeInDir(os: Os, n: string, name: string, k: nat, us: seq<string>)
    requires IsSiteDir(n) && name != [] && !IsBlank(name[|name| - 1])
    requires Tokens(name) == Ups(k) + us && NoDots(us) && us != [] && k < |Tokens(n)|
    ensures var full := NormalizePath(os, n + ("/" + name));
            (StartWith(full, ROOT) || StartWith(full, BACKSLASH_ROOT)) && Tokens(full) == Tokens(n)[..|Tokens(n)| - k] + us
  {
    hide *;
    StackInDir(os, n, name, Ups(k) + us);
    SiteDirIsTaken(os, n);
    TokensAreNames(name);
    StackOfInclude(Tokens(n), k, us);
    var ns := Tokens(n)[..|Tokens(n)| - k] + us;
    SitePath(os, n + ("/" + name), ns);
    SiteDirBegins(n);
    NamesOfInclude(Tokens(n), Ups(k), us, k);
    RootedPath(os, ns);
  }

  lemma IsRelative(name: string)
    requires name != [] && name[0] != '/'
    ensures !StartWith(name, "/")
  {
    StartsWithOne(name, "/");
  }

  lemma StackOfInclude(ds: seq<string>, k: nat, us: seq<string>)
    requires k < |ds| && NoDots(us) && Stack(ds, false) == ds
    ensures Stack(ds + (Ups(k) + us), false) == ds[..|ds| - k] + us
  {
    hide Stack, StackAfter, Ups;
    assert ds + (Ups(k) + us) == (ds + Ups(k)) + us;
    UpsPop(ds, k);
    PlainNamesStay(ds + Ups(k), us, false);
  }

  lemma RelativeFullName(w: World, filename: string, name: string, n: string)
    requires GetDirNameFromFilePath(w.os, filename) == n && !StartWith(name, "/")
    ensures var full := NormalizePath(w.os, n + ("/" + name));
            FullName(w, filename, name) == if StartWith(full, ROOT) || StartWith(full, BACKSLASH_ROOT) then full else ROOT + full
  {
    hide NormalizePath, GetDirNameFromFilePath, StartWith;
    assert n + "/" + name == n + ("/" + name);
  }

  lemma NamesOfInclude(ds: seq<string>, ups: seq<string>, us: seq<string>, k: nat)
    requires AreNames(ds) && AreNames(ups + us) && k < |ds| && us != []
    ensures var ns := ds[..|ds| - k] + us; AreNames(ns) && |ns| > 1 && ns[0] == ds[0]
  {
    assert forall t <- us :: t in ups + us;
  }

  lemma StackInDir(os: Os, n: string, name: string, ts: seq<string>)
    requires IsSiteDir(n) && name != [] && !IsBlank(name[|name| - 1]) && Tokens(name) == ts
    ensures var q := Taken(os, n + ("/" + name));
            Prefix(os, q) == "" && !DoubleSlash(q) && Stack(PathTokens(os, q), DoubleSlash(q)) == Stack(Tokens(n) + ts, false)
  {
    var r := "/" + name;
    assert Tokens(r) == ts by { assert r[1..] == name; }
    SiteDirIsTaken(os, n);
    hide Tokens, Taken, Prefix, DoubleSlash, Stack, PathTokens;
    assert r[0] == '/' && r[|r| - 1] == name[|name| - 1];
    MoreTokens(os, n, r);
  }

  /** From the root of the site ".." leads nowhere else: what remains of the name is taken from the root. */
  lemma IncludeAboveTheRoot(w: World, d: string, c: char, f: string, name: string, k: nat, us: seq<string>)
    requires IsSiteDir(d) && IsSep(c) && f != [] && SepFree(f)
    requires name != [] && name[0] != '/' && !IsBlank(name[|name| - 1])
    requires Tokens(name) == Ups(k) + us && NoDots(us) && us != [] && k >= |Tokens(d)| && !SameName(us[0], ROOT_NAME)
    ensures Tokens(FullName(w, d + ([c] + f), name)) == [ROOT_NAME] + us
  {
    var n := NormalizePath(w.os, d);
    RootName();
    hide *;
    IsRelative(name);
    SiteDirBegins(d);
    DirOfPage(w.os, d, c, f);
    SiteDirNormalized(w.os, d);
    StackInDir(w.os, n, name, Ups(k) + us);
    SiteDirIsTaken(w.os, n);
    StackAboveRoot(Tokens(d), k, us);
    TokensAreNames(name);
    NamesAboveRoot(Ups(k), us);
    SitePath(w.os, n + ("/" + name), us);
    RelativeFullName(w, d + ([c] + f), name, n);
    PathOutsideTheRoot(w.os, us);
  }

  lemma StackAboveRoot(ds: seq<string>, k: nat, us: seq<string>)
    requires k >= |ds| && NoDots(us) && Stack(ds, false) == ds
    ensures Stack(ds + (Ups(k) + us), false) == us
  {
    hide Stack, StackAfter, Ups;
    assert ds + (Ups(k) + us) == (ds + Ups(k)) + us;
    UpsEmpty(ds, k);
    PlainNamesStay(ds + Ups(k), us, false);
    assert [] + us == us;
  }

  lemma {:induction false} UpsEmpty(ts: seq<string>, k: nat)
    requires k >= |ts| && Stack(ts, false) == ts
    ensures Stack(ts + Ups(k), false) == []
    decreases k
  {
    if k == |ts| {
      UpsPop(ts, k);
    } else {
      UpsEnd(k - 1);
      assert ts + (Ups(k - 1) + [".."]) == (ts + Ups(k - 1)) + [".."];
      StackOfOneMore(ts + Ups(k - 1), "..", false);
      hide Stack;
      UpsEmpty(ts, k - 1);
    }
  }

  lemma NamesAboveRoot(ups: seq<string>, us: seq<string>)
    requires AreNames(ups + us)
    ensures AreNames(us)
  {
    assert forall t <- us :: t in ups + us;
  }

  lemma PathOutsideTheRoot(os: Os, us: seq<string>)
    requires AreNames(us) && us != [] && NoDots(us) && !SameName(us[0], ROOT_NAME)
    ensures var full := ConvertPath(os, Join(us));
            !StartWith(full, ROOT) && !StartWith(full, BACKSLASH_ROOT) && Tokens(ROOT + full) == [ROOT_NAME] + us
  {
    RootName();
    var full := ConvertPath(os, Join(us));
    TokensOfJoin(us);
    ConvertKeepsTokens(os, Join(us));
    hide Tokens, StartWith, ConvertPath, Join;
    if StartWith(full, ROOT) {
      RootIsFirst(full, ROOT);
    }
    if StartWith(full, BACKSLASH_ROOT) {
      RootIsFirst(full, BACKSLASH_ROOT);
    }
    TokensBeforeSep(ROOT_NAME, "/", full);
  }

  /** A name with a leading slash is taken from the root of the site, wherever the page is. */
  lemma AbsoluteInclude(w: World, filename: string, rest: string)
    requires rest != [] && !IsBlank(rest[|rest| - 1]) && NoDots(Tokens(rest)) && Tokens(rest) != []
    ensures Tokens(FullName(w, filename, "/" + rest)) == [ROOT_NAME] + Tokens(rest)
  {
    RootIsSiteDir();
    RootName();
    AbsoluteFullName(w, filename, rest);
    hide *;
    StackInDir(w.os, ROOT_NAME, rest, Tokens(rest));
    SiteDirIsTaken(w.os, ROOT_NAME);
    PlainNamesStay(Tokens(ROOT_NAME), Tokens(rest), false);
    TokensAreNames(rest);
    var ns := [ROOT_NAME] + Tokens(rest);
    SitePath(w.os, ROOT_NAME + ("/" + rest), ns);
    SiteDirBegins(ROOT_NAME);
    RootAndRest(Tokens(rest));
    RootedPath(w.os, ns);
  }

  lemma RootAndRest(ts: seq<string>)
    requires AreNames(ts) && ts != []
    ensures var ns := [ROOT_NAME] + ts; AreNames(ns) && |ns| > 1 && ns[0] == ROOT_NAME
  {
    RootName();
  }

  lemma RootIsSiteDir()
    ensures IsSiteDir(ROOT_NAME) && Tokens(ROOT_NAME) == [ROOT_NAME]
  {
    RootName();
    TokensOfName(ROOT_NAME);
  }

  lemma AbsoluteFullName(w: World, filename: string, rest: string)
    ensures var full := NormalizePath(w.os, ROOT_NAME + ("/" + rest));
            FullName(w, filename, "/" + rest) ==
              if StartWith(full, ROOT) || StartWith(full, BACKSLASH_ROOT) then full else ROOT + full
  {
    var name := "/" + rest;
    StartsWithOne(name, "/");
    assert name[1..] == rest && ROOT + rest == ROOT_NAME + ("/" + rest);
    hide NormalizePath, GetDirNameFromFilePath, StartWith;
  }

  /** What takes the place of a directive: nothing if the file is missing; its bytes without a leading byte-order
      mark if it is no page or the nesting has reached its limit; and else, again without the mark, what its own
      text up to the first NUL expands to. */
  lemma IncludedText(w: World, filename: string, name: string, span: string, depth: nat, bytes: Bytes)
    requires depth < 4
    ensures var full := FullName(w, filename, name);
            var put := ExpandPiece(w, Include(name, span), filename, depth);
            && (w.file(full) == None ==> put == [])
            && (w.file(full) == Some(bytes) && (!EndWith(full, ".html") || depth == 3) ==>
                  put == bytes || (bytes == BOM + put))
            && (w.file(full) == Some(bytes) && (!EndWith(full, ".html") || depth == 3) && BOM <= bytes ==> bytes == BOM + put)
            && (w.file(full) == Some(bytes) && EndWith(full, ".html") && depth < 3 ==>
                  var text := ExpandPieces(w, Pieces(UpToNul(bytes)), full, depth + 1);
                  put == if BOM <= text then text[3..] else text)
  {
    hide FullName, EndWith, Pieces, ExpandPieces, UpToNul;
  }


  // ---- How a directive is written ----

  /** An include of `name`: the tag in any letter case, the name in quotes, and anything up to the end tag. */
  function Written(tag: string, quote: char, name: string, filler: string): string {
    tag + [quote] + name + [quote] + filler + END_TAG
  }

  predicate MayBeWritten(tag: string, quote: char, name: string, filler: string) {
    && SameName(tag, START_TAG) && (quote == '"' || quote == '\'') && quote !in name && |name| < 32
    && forall j | 0 <= j < |filler| :: !OccursAt(filler + END_TAG, END_TAG, j)
  }

  /** What is written is read: at its place on a page a directive stands for its name, and reading goes on
      right behind it. */
  lemma WrittenIsRead(tag: string, quote: char, name: string, filler: string, post: string)
    requires MayBeWritten(tag, quote, name, filler)
    ensures var span := Written(tag, quote, name, filler);
            Pieces(span + post) == [Include(name, span)] + Pieces(post)
  {
    var span := Written(tag, quote, name, filler);
    WrittenIsDirective(tag, quote, name, filler);
    hide *;
    ReadFirst(span, name, post);
  }

  lemma ReadFirst(span: string, name: string, post: string)
    requires IsDirective(span, name) && span != []
    ensures Pieces(span + post) == [Include(name, span)] + Pieces(post)
  {
    var text := span + post;
    assert text[0..] == text && text[0..][..|span|] == span && text[|span|..] == post && text[0..|span|] == span;
    hide IsDirective, Pieces;
    assert DirectivePrefix(text[0..], name, |span|);
    NextIsInclude(text, 0, name, |span|);
  }

  lemma WrittenIsDirective(tag: string, quote: char, name: string, filler: string)
    requires MayBeWritten(tag, quote, name, filler)
    ensures var span := Written(tag, quote, name, filler); span != [] && IsDirective(span, name)
  {
    hide SameName, StartWith, OccursAt;
    var span := Written(tag, quote, name, filler);
    Parts(tag, quote, name, filler, END_TAG);
    TagIsRead(tag, START_TAG, span);
  }

  lemma Parts(tag: string, quote: char, name: string, filler: string, end: string)
    ensures var span, n := tag + [quote] + name + [quote] + filler + end, |tag|;
            var rest := n + 2 + |name|;
            && |span| == rest + |filler| + |end|
            && tag <= span && span[n] == quote && span[n + 1..rest - 1] == name && span[rest - 1] == quote
            && OccursAt(span, end, |span| - |end|)
            && forall j | rest <= j < |span| - |end| :: OccursAt(span, end, j) <==> OccursAt(filler + end, end, j - rest)
  {
    var span, rest := tag + [quote] + name + [quote] + filler + end, |tag| + 2 + |name|;
    assert span[rest..] == filler + end;
    hide OccursAt;
    forall j | rest <= j <= |span| - |end| ensures OccursAt(span, end, j) <==> OccursAt(filler + end, end, j - rest) {
      OccursInSuffix(span, end, rest, j - rest);
    }
    OccursAtEnd(filler, end);
  }

  lemma OccursAtEnd(filler: string, end: string)
    ensures OccursAt(filler + end, end, |filler|)
  {
  }

  lemma TagIsRead(tag: string, key: string, span: string)
    requires SameName(tag, key) && tag <= span && key != []
    ensures |tag| == |key| && StartWith(span, key)
  {
    assert |Fold(tag)| == |Fold(key)|;
    assert span[..|tag|] == tag;
    StrCmpiZeroMeansSameName(tag, key);
  }

  lemma TagIs(span: string, key: string)
    requires StartWith(span, key)
    ensures |key| <= |span| && SameName(span[..|key|], key)
  {
    StrCmpiZeroMeansSameName(span[..|key|], key);
  }

  /** And nothing else is read as a directive. */
  lemma ReadIsWritten(span: string, name: string)
    requires IsDirective(span, name)
    ensures exists tag, quote, filler :: MayBeWritten(tag, quote, name, filler) && span == Written(tag, quote, name, filler)
  {
    hide SameName, StartWith, OccursAt;
    TagIs(span, START_TAG);
    var n := |START_TAG|;
    var tag, quote, filler := span[..n], span[n], span[n + 2 + |name|..|span| - |END_TAG|];
    SplitSpan(span, n, name, END_TAG);
    Parts(tag, quote, name, filler, END_TAG);
    forall j | 0 <= j < |filler| ensures !OccursAt(filler + END_TAG, END_TAG, j) {
      assert !OccursAt(span, END_TAG, n + 2 + |name| + j);
    }
    assert MayBeWritten(tag, quote, name, filler);
  }

  lemma SplitSpan(span: string, n: nat, name: string, end: string)
    requires n + 2 + |name| + |end| <= |span| && span[n + 1..n + 1 + |name|] == name && span[n + 1 + |name|] == span[n]
    requires OccursAt(span, end, |span| - |end|)
    ensures span == span[..n] + [span[n]] + name + [span[n]] + span[n + 2 + |name|..|span| - |end|] + end
  {
  }
}
