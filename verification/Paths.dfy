/** Normalization of file paths: the token stack that resolves "." and "..". */
module Paths {
  import opened Text

  /** What a path may depend on: the kind of system, the current directory and the home directory. */
  datatype Os = Os(windows: bool, currentDir: string, homeDir: string)

  predicate IsSep(c: char) { c == '/' || c == '\\' }

  predicate SepFree(s: string) { forall i | 0 <= i < |s| :: !IsSep(s[i]) }

  function ConvertPath(os: Os, s: string): (r: string)
    ensures |r| == |s|
  {
    if s == [] then []
    else [if IsSep(s[0]) then (if os.windows then '\\' else '/') else s[0]] + ConvertPath(os, s[1..])
  }

  predicate IsBlank(c: char) { c == ' ' || c == '\t' }

  function TrimLeft(s: string): string { if s != [] && IsBlank(s[0]) then TrimLeft(s[1..]) else s }

  function TrimRight(s: string): string { if s != [] && IsBlank(s[|s| - 1]) then TrimRight(s[..|s| - 1]) else s }

  // ---- Tokens ----

  function TokenLength(s: string): (n: nat)
    ensures n <= |s| && SepFree(s[..n]) && (n < |s| ==> IsSep(s[n]))
    ensures s != [] && !IsSep(s[0]) ==> n > 0
  {
    if s == [] || IsSep(s[0]) then 0 else 1 + TokenLength(s[1..])
  }

  /** The names between separators; empty ones do not count. */
  function Tokens(s: string): seq<string>
    decreases |s|
  {
    if s == [] then []
    else if IsSep(s[0]) then Tokens(s[1..])
    else [s[..TokenLength(s)]] + Tokens(s[TokenLength(s)..])
  }

  function Join(ts: seq<string>): string {
    if ts == [] then []
    else if |ts| == 1 then ts[0]
    else ts[0] + "/" + Join(ts[1..])
  }

  predicate AreNames(ts: seq<string>) { forall t <- ts :: t != [] && SepFree(t) }

  lemma {:induction false} TokenLengthIs(s: string, n: nat)
    requires n <= |s| && SepFree(s[..n]) && (n < |s| ==> IsSep(s[n]))
    ensures TokenLength(s) == n
    decreases n
  {
    if n > 0 {
      assert s[..n][0] == s[0];
      assert s[1..][..n - 1] == s[..n][1..];
      TokenLengthIs(s[1..], n - 1);
    }
  }

  lemma {:induction false} TokensAreNames(s: string)
    ensures AreNames(Tokens(s))
    decreases |s|
  {
    if s != [] {
      if IsSep(s[0]) {
        TokensAreNames(s[1..]);
      } else {
        TokensAreNames(s[TokenLength(s)..]);
      }
    }
  }

  /** Texts that meet at a separator have their tokens one after the other. */
  lemma {:induction false} TokensOfBoth(a: string, b: string)
    requires a == [] || b == [] || IsSep(b[0]) || IsSep(a[|a| - 1])
    ensures Tokens(a + b) == Tokens(a) + Tokens(b)
    decreases |a|
  {
    if a == [] {
      assert a + b == b;
    } else if IsSep(a[0]) {
      assert (a + b)[1..] == a[1..] + b;
      TokensOfBoth(a[1..], b);
    } else {
      var n := TokenLength(a);
      assert (a + b)[..n] == a[..n] && (a + b)[n..] == a[n..] + b;
      TokenLengthIs(a + b, n);
      if n == |a| {
        assert a[..n][n - 1] == a[n - 1];
      }
      TokensOfBoth(a[n..], b);
    }
  }

  lemma TokensOfName(t: string)
    requires t != [] && SepFree(t)
    ensures Tokens(t) == [t]
  {
    TokenLengthIs(t, |t|);
    assert t[..|t|] == t && t[|t|..] == [];
  }

  /** Joining names and taking the result apart again gives the names. */
  lemma {:induction false} TokensOfJoin(ts: seq<string>)
    requires AreNames(ts)
    ensures Tokens(Join(ts)) == ts
  {
    if ts != [] {
      assert ts[0] in ts;
      if |ts| == 1 {
        hide Tokens;
        TokensOfName(ts[0]);
      } else {
        hide Tokens;
        TokensOfJoin(ts[1..]);
        TokensBeforeSep(ts[0], "/", Join(ts[1..]));
        hide Join;
        assert [ts[0]] + ts[1..] == ts;
      }
    }
  }

  lemma TokensBeforeSep(t: string, sep: string, rest: string)
    requires t != [] && SepFree(t) && |sep| == 1 && IsSep(sep[0])
    ensures Tokens(t + sep + rest) == [t] + Tokens(rest)
  {
    assert Tokens(sep) == [] by { assert sep[1..] == []; }
    hide Tokens, IsSep;
    TokensOfName(t);
    hide SepFree;
    TokensOfBoth(t, sep);
    assert (t + sep)[|t|] == sep[0];
    TokensOfBoth(t + sep, rest);
  }

  lemma {:induction false} ConvertedAt(os: Os, s: string, i: nat)
    requires i < |s|
    ensures ConvertPath(os, s)[i] == if IsSep(s[i]) then (if os.windows then '\\' else '/') else s[i]
  {
    if i > 0 {
      ConvertedAt(os, s[1..], i - 1);
    }
  }

  lemma {:induction false} ConvertedTail(os: Os, s: string, n: nat)
    requires n <= |s|
    ensures ConvertPath(os, s)[n..] == ConvertPath(os, s[n..])
  {
    if n > 0 {
      ConvertedTail(os, s[1..], n - 1);
      assert ConvertPath(os, s)[1..] == ConvertPath(os, s[1..]);
      assert s[1..][n - 1..] == s[n..];
      assert ConvertPath(os, s)[1..][n - 1..] == ConvertPath(os, s)[n..];
    }
  }

  /** Changing the separators does not change the tokens. */
  lemma {:induction false} ConvertKeepsTokens(os: Os, s: string)
    ensures Tokens(ConvertPath(os, s)) == Tokens(s)
    decreases |s|
  {
    var r := ConvertPath(os, s);
    if s != [] {
      ConvertedAt(os, s, 0);
      if IsSep(s[0]) {
        ConvertedTail(os, s, 1);
        ConvertKeepsTokens(os, s[1..]);
      } else {
        var n := TokenLength(s);
        forall i | 0 <= i < |s| ensures IsSep(r[i]) <==> IsSep(s[i]) ensures !IsSep(s[i]) ==> r[i] == s[i] {
          ConvertedAt(os, s, i);
        }
        forall i | 0 <= i < n ensures r[i] == s[i] {
          assert s[..n][i] == s[i];
        }
        assert r[..n] == s[..n];
        TokenLengthIs(r, n);
        ConvertedTail(os, s, n);
        ConvertKeepsTokens(os, s[n..]);
      }
    }
  }

  // ---- Normalization ----

  /** The stack after the first `n` tokens; under a leading double separator the first name stays. */
  function StackAfter(ts: seq<string>, n: nat, doubleSlash: bool): (stack: seq<string>)
    requires n <= |ts|
  {
    if n == 0 then []
    else
      var stack := StackAfter(ts, n - 1, doubleSlash);
      var t := ts[n - 1];
      if t == "." then stack
      else if t == ".." then
        if |stack| >= 1 && (!doubleSlash || |stack| >= 2) then stack[..|stack| - 1] else stack
      else stack + [t]
  }

  predicate NoDots(ts: seq<string>) { forall t <- ts :: t != "." && t != ".." }

  lemma {:induction false} StackHasNoDots(ts: seq<string>, n: nat, doubleSlash: bool)
    requires n <= |ts| && AreNames(ts)
    ensures NoDots(StackAfter(ts, n, doubleSlash)) && AreNames(StackAfter(ts, n, doubleSlash))
  {
    if n > 0 {
      StackHasNoDots(ts, n - 1, doubleSlash);
      var stack := StackAfter(ts, n - 1, doubleSlash);
      assert ts[n - 1] in ts;
      assert forall t <- StackAfter(ts, n, doubleSlash) :: t in stack || (t == ts[n - 1] && t != "." && t != "..");
    }
  }

  /** A relative path that begins with a dot is taken from the current directory, one that begins with a
      tilde from the home directory. */
  function Anchored(os: Os, path: string): string {
    var p := if StartWith(path, "./") || StartWith(path, ".\\") || StartWith(path, "../") || StartWith(path, "..\\")
                || path == "." || path == ".." then
               if StartWith(path, "..") then os.currentDir + "/../" + path[2..] else os.currentDir + "/" + path
             else path;
    if StartWith(p, "~/") || StartWith(p, "~\\") then os.homeDir + "/" + p[2..] else p
  }

  predicate DoubleSlash(p: string) { StartWith(p, "//") || StartWith(p, "\\\\") }

  predicate HasDrive(os: Os, p: string) { os.windows && |p| >= 2 && p[1] == ':' }

  /** What stands before the names: leading separators and a drive. */
  function Prefix(os: Os, p: string): string {
    (if DoubleSlash(p) then "//" else if StartWith(p, "/") || StartWith(p, "\\") then "/" else "") +
    (if HasDrive(os, p) then [p[0]] + ":/" else "")
  }

  function PathTokens(os: Os, p: string): seq<string> {
    Tokens(if HasDrive(os, p) then p[2..] else p)
  }

  function NormalizePath(os: Os, src: string): string {
    var p := Anchored(os, TrimRight(TrimLeft(ConvertPath(os, src))));
    var ts := PathTokens(os, p);
    ConvertPath(os, Prefix(os, p) + Join(StackAfter(ts, |ts|, DoubleSlash(p))))
  }

  /** The code: a stack of names, filled from the left. */
  method NormalizePathW(os: Os, src: string) returns (dst: string)
    ensures dst == NormalizePath(os, src)
  {
    var tmp := Anchored(os, TrimRight(TrimLeft(ConvertPath(os, src))));
    var firstDoubleSlash := DoubleSlash(tmp);
    var prefix := Prefix(os, tmp);
    var tokens := PathTokens(os, tmp);
    var sk: seq<string> := [];
    for i := 0 to |tokens|
      invariant sk == StackAfter(tokens, i, firstDoubleSlash)
    {
      if tokens[i] == "." {
      } else if tokens[i] == ".." {
        if |sk| >= 1 && (!firstDoubleSlash || |sk| >= 2) {
          sk := sk[..|sk| - 1];
        }
      } else {
        sk := sk + [tokens[i]];
      }
    }
    dst := ConvertPath(os, prefix + Join(sk));
  }

  lemma PrefixTokens(os: Os, p: string)
    ensures var prefix := Prefix(os, p); NoDots(Tokens(prefix)) && (prefix == [] || IsSep(prefix[|prefix| - 1]))
  {
    var slashes := if DoubleSlash(p) then "//" else if StartWith(p, "/") || StartWith(p, "\\") then "/" else "";
    assert Tokens(slashes) == [] by {
      assert "//"[1..] == "/" && "/"[1..] == [];
    }
    if HasDrive(os, p) {
      var drive := [p[0]] + ":/";
      TokensOfBoth(slashes, drive);
      DriveHasNoDots(p[0]);
    } else {
      assert Prefix(os, p) == slashes;
    }
  }

  lemma DriveHasNoDots(c: char)
    ensures NoDots(Tokens([c] + ":/"))
  {
    var drive := [c] + ":/";
    assert Tokens("/") == [] by { assert "/"[1..] == []; }
    TokensOfName(":");
    TokensOfBoth(":", "/");
    assert ":" + "/" == ":/";
    if IsSep(c) {
      assert drive[1..] == ":/";
    } else {
      var name := [c] + ":";
      TokensOfName(name);
      TokensOfBoth(name, "/");
      assert name + "/" == drive;
      assert name[1] == ':';
    }
  }

  /** No normalized path has a component that stands for a directory or its parent. */
  lemma NormalizedHasNoDots(os: Os, src: string)
    ensures NoDots(Tokens(NormalizePath(os, src)))
  {
    var p := Anchored(os, TrimRight(TrimLeft(ConvertPath(os, src))));
    var ts := PathTokens(os, p);
    var stack := StackAfter(ts, |ts|, DoubleSlash(p));
    TokensAreNames(if HasDrive(os, p) then p[2..] else p);
    StackHasNoDots(ts, |ts|, DoubleSlash(p));
    PrefixTokens(os, p);
    TokensOfJoin(stack);
    hide Prefix, Anchored, PathTokens, DoubleSlash;
    TokensOfBoth(Prefix(os, p), Join(stack));
    ConvertKeepsTokens(os, Prefix(os, p) + Join(stack));
  }

  /** The directory part of a path, as it stands before the last separator. */
  function BeforeLastSep(s: string): string {
    if s == [] then [] else if IsSep(s[|s| - 1]) then s[..|s| - 1] else BeforeLastSep(s[..|s| - 1])
  }

  function GetDirNameFromFilePath(os: Os, path: string): string {
    var p := if path != [] && IsSep(path[|path| - 1]) then path[..|path| - 1] else path;
    var dir := BeforeLastSep(p);
    NormalizePath(os, if dir == [] then "/" else dir)
  }
}
