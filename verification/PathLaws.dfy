/** What normalization does to the components of a path, said of paths and not of the token stack. */
module PathLaws {
  import opened Text
  import opened Paths

  /** The components that are left of a path. */
  function Names(os: Os, path: string): seq<string> { Tokens(NormalizePath(os, path)) }

  /** The path as it is taken apart: trimmed, and anchored if it begins with a dot or a tilde. */
  function Taken(os: Os, path: string): string { Anchored(os, TrimRight(TrimLeft(ConvertPath(os, path)))) }

  /** How many of its components ".." never removes: a drive, and the first name under a leading double
      separator. */
  function Fixed(os: Os, path: string): nat {
    (if HasDrive(os, Taken(os, path)) then 1 else 0) + if DoubleSlash(Taken(os, path)) then 1 else 0
  }

  /** A path that ends in a component, not in a separator or blank; a lone tilde is one only at the very end. */
  predicate EndsInName(path: string) {
    && path != [] && !IsBlank(path[0]) && !IsBlank(path[|path| - 1]) && !IsSep(path[|path| - 1]) && path != "~"
  }

  /** More of a path: nothing, or something that begins with a separator and does not end in a blank. */
  predicate IsRest(rest: string) { rest == [] || (IsSep(rest[0]) && !IsBlank(rest[|rest| - 1])) }

  predicate IsPlainName(x: string) { x != [] && SepFree(x) && !IsBlank(x[|x| - 1]) && x != "." && x != ".." }

  // ---- How a path begins ----

  predicate IsLetter(c: char) { 'a' <= c <= 'z' || 'A' <= c <= 'Z' }

  lemma StartsWithOne(s: string, key: string)
    requires |key| == 1 && !IsLetter(key[0])
    ensures StartWith(s, key) <==> |s| >= 1 && s[0] == key[0]
  {
    if |s| >= 1 {
      StepOfStrCmpi(s[..1], key);
      assert s[..1][1..] == [] && key[1..] == [];
      assert StrCmpi([], []) == 0;
    }
  }

  lemma StartsWithTwo(s: string, key: string)
    requires |key| == 2 && !IsLetter(key[0]) && !IsLetter(key[1])
    ensures StartWith(s, key) <==> |s| >= 2 && s[0] == key[0] && s[1] == key[1]
  {
    if |s| >= 2 {
      var t := s[..2];
      assert t[1..] == [s[1]] && key[1..] == [key[1]];
      assert t[1..][1..] == [] && key[1..][1..] == [];
      assert StrCmpi(t[1..], key[1..]) == 0 <==> s[1] == key[1];
    }
  }

  lemma StartsWithThree(s: string, key: string)
    requires |key| == 3 && !IsLetter(key[0]) && !IsLetter(key[1]) && !IsLetter(key[2])
    ensures StartWith(s, key) <==> |s| >= 3 && s[0] == key[0] && s[1] == key[1] && s[2] == key[2]
  {
    if |s| >= 3 {
      var t := s[..3];
      StartsWithTwo(t[1..], key[1..]);
      assert t[1..][..2] == t[1..];
      hide StrCmpi;
      assert StrCmpi(t, key) == 0 <==> ToUpper(t[0]) == ToUpper(key[0]) && StrCmpi(t[1..], key[1..]) == 0 by {
        StepOfStrCmpi(t, key);
      }
    }
  }

  lemma StepOfStrCmpi(s: string, t: string)
    requires s != [] && t != []
    ensures StrCmpi(s, t) == 0 <==> ToUpper(s[0]) == ToUpper(t[0]) && StrCmpi(s[1..], t[1..]) == 0
  {
  }

  predicate BeginsWithDots(s: string) {
    || (|s| >= 2 && s[0] == '.' && IsSep(s[1])) || (|s| >= 3 && s[0] == '.' && s[1] == '.' && IsSep(s[2]))
    || (|s| == 1 && s[0] == '.') || (|s| == 2 && s[0] == '.' && s[1] == '.')
  }

  predicate BeginsWithTilde(s: string) { |s| >= 2 && s[0] == '~' && IsSep(s[1]) }

  predicate BeginsWithTwoSeps(s: string) { |s| >= 2 && IsSep(s[0]) && s[1] == s[0] }

  lemma HowItBegins(s: string)
    ensures BeginsWithDots(s) <==> (StartWith(s, "./") || StartWith(s, ".\\") || StartWith(s, "../") || StartWith(s, "..\\")
                                    || s == "." || s == "..")
    ensures StartWith(s, "..") <==> |s| >= 2 && s[0] == '.' && s[1] == '.'
    ensures BeginsWithTilde(s) <==> StartWith(s, "~/") || StartWith(s, "~\\")
    ensures DoubleSlash(s) <==> BeginsWithTwoSeps(s)
    ensures StartWith(s, "/") || StartWith(s, "\\") <==> |s| >= 1 && IsSep(s[0])
  {
    StartsWithTwo(s, "./");
    StartsWithTwo(s, ".\\");
    StartsWithThree(s, "../");
    StartsWithThree(s, "..\\");
    StartsWithTwo(s, "..");
    StartsWithTwo(s, "~/");
    StartsWithTwo(s, "~\\");
    StartsWithTwo(s, "//");
    StartsWithTwo(s, "\\\\");
    StartsWithOne(s, "/");
    StartsWithOne(s, "\\");
    hide StartWith;
  }

  // ---- More of a path ----

  lemma {:induction false} ConvertAppends(os: Os, s: string, t: string)
    ensures ConvertPath(os, s + t) == ConvertPath(os, s) + ConvertPath(os, t)
  {
    if s == [] {
      assert s + t == t;
    } else {
      assert (s + t)[1..] == s[1..] + t;
      ConvertAppends(os, s[1..], t);
    }
  }

  lemma Converted(os: Os, s: string)
    ensures var r := ConvertPath(os, s);
            |r| == |s| && forall i | 0 <= i < |s| :: (IsSep(r[i]) <==> IsSep(s[i])) && (!IsSep(s[i]) ==> r[i] == s[i])
  {
    forall i | 0 <= i < |s|
      ensures var r := ConvertPath(os, s); (IsSep(r[i]) <==> IsSep(s[i])) && (!IsSep(s[i]) ==> r[i] == s[i])
    {
      ConvertedAt(os, s, i);
    }
  }

  lemma TrimmedAlready(s: string)
    requires s == [] || (!IsBlank(s[0]) && !IsBlank(s[|s| - 1]))
    ensures TrimRight(TrimLeft(s)) == s
  {
  }

  /** What the anchoring is to a path is decided by what stands before the rest. */
  lemma AnchoredAppends(os: Os, a: string, r: string)
    requires EndsInName(a) && (r == [] || IsSep(r[0]))
    ensures Anchored(os, a + r) == Anchored(os, a) + r
  {
    AnchoredIs(os, a);
    AnchoredIs(os, a + r);
    SameDots(a, r);
    hide Anchored, Home, BeginsWithDots;
    if BeginsWithDots(a) {
      if TwoDots(a) {
        assert (a + r)[2..] == a[2..] + r;
        HereAppends(os.currentDir + "/../", a[2..], r);
        HomeAppends(os, os.currentDir + "/../" + a[2..], r);
      } else {
        HereAppends(os.currentDir + "/", a, r);
        HomeAppends(os, os.currentDir + "/" + a, r);
      }
    } else {
      HomeAppends(os, a, r);
    }
  }

  predicate TwoDots(s: string) { |s| >= 2 && s[0] == '.' && s[1] == '.' }

  lemma HereAppends(here: string, a: string, r: string)
    ensures here + (a + r) == here + a + r
  {
  }

  lemma SameDots(a: string, r: string)
    requires EndsInName(a) && (r == [] || IsSep(r[0]))
    ensures (BeginsWithDots(a + r) <==> BeginsWithDots(a)) && (TwoDots(a + r) <==> TwoDots(a))
  {
  }

  lemma AnchoredIs(os: Os, a: string)
    ensures Anchored(os, a) ==
              Home(os, if !BeginsWithDots(a) then a else if TwoDots(a) then os.currentDir + "/../" + a[2..] else os.currentDir + "/" + a)
  {
    HowItBegins(a);
    hide BeginsWithDots;
  }

  function Home(os: Os, p: string): string {
    if StartWith(p, "~/") || StartWith(p, "~\\") then os.homeDir + "/" + p[2..] else p
  }

  lemma HomeAppends(os: Os, p: string, r: string)
    requires |p| >= 2 || (|p| == 1 && (r == [] || p[0] != '~'))
    ensures Home(os, p + r) == Home(os, p) + r
  {
    HowItBegins(p);
    HowItBegins(p + r);
    hide StartWith;
    if BeginsWithTilde(p) {
      assert (p + r)[2..] == p[2..] + r;
      assert os.homeDir + "/" + (p[2..] + r) == os.homeDir + "/" + p[2..] + r;
    }
  }

  predicate HasBeginning(p: string) { |p| >= 2 || (|p| == 1 && !IsSep(p[0])) }

  lemma TakenAppends(os: Os, a: string, r: string)
    requires EndsInName(a) && IsRest(r)
    ensures Taken(os, a + r) == Taken(os, a) + ConvertPath(os, r) && HasBeginning(Taken(os, a))
  {
    var b, q := ConvertPath(os, a), ConvertPath(os, r);
    hide ConvertPath, Anchored;
    ConvertAppends(os, a, r);
    NameConverted(os, a, r);
    hide TrimLeft, TrimRight;
    TrimmedAlready(b);
    TrimmedAlready(b + q);
    AnchoredAppends(os, b, q);
    AnchoredIsLong(os, b);
  }

  lemma NameConverted(os: Os, a: string, r: string)
    requires EndsInName(a) && IsRest(r)
    ensures var b, q := ConvertPath(os, a), ConvertPath(os, r);
            && EndsInName(b) && (q == [] || IsSep(q[0])) && !IsBlank((b + q)[|b + q| - 1]) && !IsBlank((b + q)[0])
  {
    Converted(os, a);
    Converted(os, r);
    hide ConvertPath;
  }

  lemma AnchoredIsLong(os: Os, a: string)
    requires EndsInName(a)
    ensures HasBeginning(Anchored(os, a))
  {
    HowItBegins(a);
    hide StartWith;
    if BeginsWithDots(a) {
      var p := if StartWith(a, "..") then os.currentDir + "/../" + a[2..] else os.currentDir + "/" + a;
      assert |p| >= 2 && Anchored(os, a) == Home(os, p);
      HomeIsLong(os, p);
    } else {
      assert Anchored(os, a) == Home(os, a);
      HomeIsLong(os, a);
    }
  }

  lemma HomeIsLong(os: Os, p: string)
    requires HasBeginning(p) && (|p| == 2 ==> !BeginsWithTilde(p))
    ensures HasBeginning(Home(os, p))
  {
    HowItBegins(p);
    hide StartWith;
  }

  lemma BeginningStays(os: Os, p: string, r: string)
    requires HasBeginning(p) && (r == [] || IsSep(r[0]))
    ensures Prefix(os, p + r) == Prefix(os, p) && DoubleSlash(p + r) == DoubleSlash(p) && HasDrive(os, p + r) == HasDrive(os, p)
    ensures PathTokens(os, p + r) == PathTokens(os, p) + Tokens(r)
  {
    HowItBegins(p);
    HowItBegins(p + r);
    hide StartWith, Tokens;
    assert HasDrive(os, p + r) == HasDrive(os, p);
    if HasDrive(os, p) {
      assert (p + r)[2..] == p[2..] + r;
      TokensOfBoth(p[2..], r);
    } else {
      TokensOfBoth(p, r);
    }
  }

  // ---- The token stack ----

  lemma {:induction false} StackOfPrefix(ts: seq<string>, us: seq<string>, n: nat, doubleSlash: bool)
    requires n <= |ts|
    ensures StackAfter(ts + us, n, doubleSlash) == StackAfter(ts, n, doubleSlash)
  {
    if n > 0 {
      StackOfPrefix(ts, us, n - 1, doubleSlash);
      assert (ts + us)[n - 1] == ts[n - 1];
    }
  }

  function Stack(ts: seq<string>, doubleSlash: bool): seq<string> { StackAfter(ts, |ts|, doubleSlash) }

  lemma StackOfOneMore(ts: seq<string>, t: string, doubleSlash: bool)
    ensures var stack := Stack(ts, doubleSlash);
            Stack(ts + [t], doubleSlash) ==
              if t == "." then stack
              else if t == ".." then if |stack| > (if doubleSlash then 1 else 0) then stack[..|stack| - 1] else stack
              else stack + [t]
  {
    StackOfPrefix(ts, [t], |ts|, doubleSlash);
    assert (ts + [t])[|ts|] == t;
  }

  /** What follows does not care how the stack came about. */
  lemma {:induction false} SameStackGoesOn(ts: seq<string>, us: seq<string>, rest: seq<string>, doubleSlash: bool)
    requires Stack(ts, doubleSlash) == Stack(us, doubleSlash)
    ensures Stack(ts + rest, doubleSlash) == Stack(us + rest, doubleSlash)
    decreases |rest|
  {
    if rest == [] {
      assert ts + rest == ts && us + rest == us;
    } else {
      assert ts + rest == (ts + [rest[0]]) + rest[1..] && us + rest == (us + [rest[0]]) + rest[1..];
      StackOfOneMore(ts, rest[0], doubleSlash);
      StackOfOneMore(us, rest[0], doubleSlash);
      hide Stack;
      SameStackGoesOn(ts + [rest[0]], us + [rest[0]], rest[1..], doubleSlash);
    }
  }

  lemma {:induction false} PlainNamesStay(ts: seq<string>, us: seq<string>, doubleSlash: bool)
    requires NoDots(us)
    ensures Stack(ts + us, doubleSlash) == Stack(ts, doubleSlash) + us
    decreases |us|
  {
    if us == [] {
      assert ts + us == ts;
    } else {
      assert us[0] in us;
      assert ts + us == (ts + [us[0]]) + us[1..];
      StackOfOneMore(ts, us[0], doubleSlash);
      hide Stack;
      assert forall t <- us[1..] :: t in us;
      PlainNamesStay(ts + [us[0]], us[1..], doubleSlash);
      assert [us[0]] + us[1..] == us;
    }
  }

  /** The components left: the drive, then the stack. */
  lemma NamesAre(os: Os, path: string)
    ensures var p := Taken(os, path);
            && Names(os, path) == Tokens(Prefix(os, p)) + Stack(PathTokens(os, p), DoubleSlash(p))
            && |Tokens(Prefix(os, p))| == if HasDrive(os, p) then 1 else 0
  {
    var p := Taken(os, path);
    var ts := PathTokens(os, p);
    var stack := Stack(ts, DoubleSlash(p));
    assert NormalizePath(os, path) == ConvertPath(os, Prefix(os, p) + Join(stack));
    TokensAreNames(if HasDrive(os, p) then p[2..] else p);
    StackHasNoDots(ts, |ts|, DoubleSlash(p));
    PrefixTokens(os, p);
    PrefixIsOneToken(os, p);
    TokensOfJoin(stack);
    hide *;
    TokensOfBoth(Prefix(os, p), Join(stack));
    ConvertKeepsTokens(os, Prefix(os, p) + Join(stack));
  }

  lemma PrefixIsOneToken(os: Os, p: string)
    ensures |Tokens(Prefix(os, p))| == if HasDrive(os, p) then 1 else 0
  {
    var slashes := if DoubleSlash(p) then "//" else if StartWith(p, "/") || StartWith(p, "\\") then "/" else "";
    assert Tokens(slashes) == [] by {
      assert "//"[1..] == "/" && "/"[1..] == [];
    }
    if HasDrive(os, p) {
      TokensOfBoth(slashes, [p[0]] + ":/");
      DriveIsOneToken(p[0]);
    } else {
      assert Prefix(os, p) == slashes;
    }
  }

  lemma DriveIsOneToken(c: char)
    ensures Tokens([c] + ":/") == [if IsSep(c) then ":" else [c] + ":"]
  {
    var drive := [c] + ":/";
    assert Tokens("/") == [] by { assert "/"[1..] == []; }
    TokensOfName(":");
    TokensOfBoth(":", "/");
    assert ":" + "/" == ":/";
    if IsSep(c) {
      assert drive[1..] == ":/";
    } else {
      var name := [c] + ":";
      TokensOfName(name);
      TokensOfBoth(name, "/");
      assert name + "/" == drive;
    }
  }

  /** A normalized path is its names, joined by single separators of the system's kind, behind the separators
      or the drive that the path begins with. */
  lemma NormalizedText(os: Os, path: string)
    ensures var p, names := Taken(os, path), Names(os, path);
            && (!HasDrive(os, p) ==>
                  NormalizePath(os, path) ==
                    ConvertPath(os, (if BeginsWithTwoSeps(p) then "//" else if p != [] && IsSep(p[0]) then "/" else "") + Join(names)))
            && (HasDrive(os, p) && !IsSep(p[0]) ==>
                  names != [] && names[0] == [p[0]] + ":"
                  && NormalizePath(os, path) == ConvertPath(os, [p[0]] + ":/" + Join(names[1..])))
  {
    var p := Taken(os, path);
    var stack := Stack(PathTokens(os, p), DoubleSlash(p));
    PrefixIs(os, p);
    NamesAre(os, path);
    StackOfTaken(os, path);
    hide *;
    if !HasDrive(os, p) {
      assert [] + stack == stack;
    } else if !IsSep(p[0]) {
      DriveIsOneToken(p[0]);
      assert ([[p[0]] + ":"] + stack)[1..] == stack;
    }
  }

  lemma PrefixIs(os: Os, p: string)
    ensures !HasDrive(os, p) ==>
              Prefix(os, p) == (if BeginsWithTwoSeps(p) then "//" else if p != [] && IsSep(p[0]) then "/" else "")
    ensures !HasDrive(os, p) ==> Tokens(Prefix(os, p)) == []
    ensures HasDrive(os, p) ==> p != [] && (!IsSep(p[0]) ==> Prefix(os, p) == [p[0]] + ":/")
  {
    HowItBegins(p);
    PrefixIsOneToken(os, p);
    hide StartWith, Tokens;
    if HasDrive(os, p) && !IsSep(p[0]) {
      assert "" + ([p[0]] + ":/") == [p[0]] + ":/";
    }
  }

  lemma TokensOfSepName(c: char, x: string)
    requires IsSep(c) && x != [] && SepFree(x)
    ensures Tokens([c] + x) == [x]
  {
    assert ([c] + x)[1..] == x;
    TokensOfName(x);
  }

  /** How a path goes on with one more component. */
  lemma OneMoreToken(os: Os, a: string, c: char, x: string)
    requires EndsInName(a) && IsSep(c) && x != [] && SepFree(x) && !IsBlank(x[|x| - 1])
    ensures var p, q := Taken(os, a), Taken(os, a + ([c] + x));
            && Prefix(os, q) == Prefix(os, p) && DoubleSlash(q) == DoubleSlash(p) && HasDrive(os, q) == HasDrive(os, p)
            && PathTokens(os, q) == PathTokens(os, p) + [x]
  {
    MoreTokens(os, a, [c] + x);
    TokensOfSepName(c, x);
  }

  lemma MoreTokens(os: Os, a: string, r: string)
    requires EndsInName(a) && IsRest(r)
    ensures var p, q := Taken(os, a), Taken(os, a + r);
            && Prefix(os, q) == Prefix(os, p) && DoubleSlash(q) == DoubleSlash(p) && HasDrive(os, q) == HasDrive(os, p)
            && PathTokens(os, q) == PathTokens(os, p) + Tokens(r)
  {
    TakenAppends(os, a, r);
    Converted(os, r);
    hide Taken, Tokens, PathTokens, Prefix, DoubleSlash, HasDrive, ConvertPath;
    BeginningStays(os, Taken(os, a), ConvertPath(os, r));
    ConvertKeepsTokens(os, r);
  }

  // ---- The laws, one component at a time ----

  /** The stack, said of the path. */
  function StackOf(os: Os, path: string): seq<string> { Stack(PathTokens(os, Taken(os, path)), DoubleSlash(Taken(os, path))) }

  function DriveOf(os: Os, path: string): seq<string> { Tokens(Prefix(os, Taken(os, path))) }

  lemma NamesAreStacked(os: Os, path: string)
    ensures Names(os, path) == DriveOf(os, path) + StackOf(os, path)
    ensures Fixed(os, path) == |DriveOf(os, path)| + if DoubleSlash(Taken(os, path)) then 1 else 0
  {
    NamesAre(os, path);
  }

  lemma StackGrows(os: Os, a: string, c: char, x: string)
    requires EndsInName(a) && IsSep(c) && x != [] && SepFree(x) && !IsBlank(x[|x| - 1])
    ensures var b := a + ([c] + x);
            && DriveOf(os, b) == DriveOf(os, a) && DoubleSlash(Taken(os, b)) == DoubleSlash(Taken(os, a))
            && StackOf(os, b) == (var stack := StackOf(os, a);
                                  if x == "." then stack
                                  else if x == ".." then
                                    if |stack| > (if DoubleSlash(Taken(os, a)) then 1 else 0) then stack[..|stack| - 1] else stack
                                  else stack + [x])
  {
    OneMoreToken(os, a, c, x);
    hide Taken, Stack, PathTokens, Prefix, DoubleSlash, Tokens;
    StackOfOneMore(PathTokens(os, Taken(os, a)), x, DoubleSlash(Taken(os, a)));
  }

  /** A further name is one more component. */
  lemma NameIsAppended(os: Os, a: string, c: char, x: string)
    requires EndsInName(a) && IsSep(c) && IsPlainName(x)
    ensures Names(os, a + ([c] + x)) == Names(os, a) + [x] && Fixed(os, a + ([c] + x)) == Fixed(os, a)
  {
    NamePushed(os, a, c, x);
    hide *;
    NamesAreStacked(os, a);
    NamesAreStacked(os, a + ([c] + x));
    assert (DriveOf(os, a) + StackOf(os, a)) + [x] == DriveOf(os, a) + (StackOf(os, a) + [x]);
  }

  /** ".." takes the last component away if there is one that it may take, and does nothing if not. */
  lemma ParentIsRemoved(os: Os, a: string, c: char)
    requires EndsInName(a) && IsSep(c)
    ensures var names := Names(os, a);
            Names(os, a + ([c] + "..")) == if |names| > Fixed(os, a) then names[..|names| - 1] else names
    ensures Fixed(os, a + ([c] + "..")) == Fixed(os, a)
  {
    StackShrinks(os, a, c);
    hide *;
    NamesAreStacked(os, a);
    NamesAreStacked(os, a + ([c] + ".."));
    WithoutLast(DriveOf(os, a), StackOf(os, a), if DoubleSlash(Taken(os, a)) then 1 else 0);
    PoppedIs(Names(os, a), Fixed(os, a));
  }

  lemma PoppedIs(stack: seq<string>, keep: nat)
    ensures Popped(stack, keep) == if |stack| > keep then stack[..|stack| - 1] else stack
  {
  }

  function Popped(stack: seq<string>, keep: nat): seq<string> { if |stack| > keep then stack[..|stack| - 1] else stack }

  lemma StackShrinks(os: Os, a: string, c: char)
    requires EndsInName(a) && IsSep(c)
    ensures var b := a + ([c] + "..");
            && DriveOf(os, b) == DriveOf(os, a) && DoubleSlash(Taken(os, b)) == DoubleSlash(Taken(os, a))
            && StackOf(os, b) == Popped(StackOf(os, a), if DoubleSlash(Taken(os, a)) then 1 else 0)
  {
    StackGrows(os, a, c, "..");
    hide StackOf, DriveOf, Taken, DoubleSlash;
  }

  lemma WithoutLast(drive: seq<string>, stack: seq<string>, keep: nat)
    ensures drive + Popped(stack, keep) == Popped(drive + stack, |drive| + keep)
  {
    if |stack| > keep {
      assert (drive + stack)[..|drive + stack| - 1] == drive + stack[..|stack| - 1];
    }
  }

  /** "." changes nothing. */
  lemma DotIsIgnored(os: Os, a: string, c: char)
    requires EndsInName(a) && IsSep(c)
    ensures Names(os, a + ([c] + ".")) == Names(os, a) && Fixed(os, a + ([c] + ".")) == Fixed(os, a)
  {
    StackGrows(os, a, c, ".");
    hide *;
    NamesAreStacked(os, a);
    NamesAreStacked(os, a + ([c] + "."));
  }

  // ---- The laws, whatever follows ----

  lemma SameNamesSamePath(os: Os, a: string, b: string, r: string)
    requires EndsInName(a) && IsRest(r) && IsRest(b)
    requires StackOf(os, a + b) == StackOf(os, a) && EndsInName(a + b)
    ensures NormalizePath(os, (a + b) + r) == NormalizePath(os, a + r)
  {
    MoreTokens(os, a, b);
    MoreTokens(os, a, r);
    MoreTokens(os, a + b, r);
    var p, q := Taken(os, a), Taken(os, a + b);
    hide Tokens, PathTokens, Prefix, DoubleSlash, HasDrive, EndsInName, IsRest;
    SameStackGoesOn(PathTokens(os, p), PathTokens(os, q), Tokens(r), DoubleSlash(p));
    StackOfTaken(os, a + r);
    StackOfTaken(os, (a + b) + r);
  }

  lemma StackOfTaken(os: Os, path: string)
    ensures var p := Taken(os, path);
            NormalizePath(os, path) == ConvertPath(os, Prefix(os, p) + Join(Stack(PathTokens(os, p), DoubleSlash(p))))
  {
  }

  /** A name followed by ".." cancels: the path a/x/../rest is the path a/rest, unless x is the name that a
      leading double separator protects. */
  lemma NameAndParentCancel(os: Os, a: string, c: char, x: string, d: char, rest: string)
    requires EndsInName(a) && IsSep(c) && IsPlainName(x) && IsSep(d) && IsRest(rest)
    requires |Names(os, a)| >= Fixed(os, a)
    ensures NormalizePath(os, (a + ([c] + x + ([d] + ".."))) + rest) == NormalizePath(os, a + rest)
  {
    var b, up := [c] + x, [d] + "..";
    NamePushed(os, a, c, x);
    StillEndsInName(a, c, x);
    StillEndsInName(a + b, d, "..");
    StackShrinks(os, a + b, d);
    RestOf(c, x, d);
    hide *;
    JoinedLater(a, b, up);
    NamesAreStacked(os, a);
    PushedAndPopped(StackOf(os, a), x, if DoubleSlash(Taken(os, a)) then 1 else 0);
    SameNamesSamePath(os, a, b + up, rest);
  }

  lemma NamePushed(os: Os, a: string, c: char, x: string)
    requires EndsInName(a) && IsSep(c) && IsPlainName(x)
    ensures var b := a + ([c] + x);
            && DriveOf(os, b) == DriveOf(os, a) && DoubleSlash(Taken(os, b)) == DoubleSlash(Taken(os, a))
            && StackOf(os, b) == StackOf(os, a) + [x]
  {
    StackGrows(os, a, c, x);
    hide StackOf, DriveOf, Taken, DoubleSlash;
  }

  lemma JoinedLater(a: string, b: string, up: string)
    ensures a + (b + up) == (a + b) + up
  {
  }

  lemma PushedAndPopped(stack: seq<string>, x: string, keep: nat)
    requires |stack| >= keep
    ensures Popped(stack + [x], keep) == stack
  {
  }

  lemma StillEndsInName(a: string, c: char, x: string)
    requires EndsInName(a) && IsSep(c) && x != [] && SepFree(x) && !IsBlank(x[|x| - 1])
    ensures EndsInName(a + ([c] + x))
  {
    var b := a + ([c] + x);
    assert b[|b| - 1] == x[|x| - 1];
  }

  lemma RestOf(c: char, x: string, d: char)
    requires IsSep(c) && IsSep(d)
    ensures IsRest([c] + x + ([d] + ".."))
  {
    var r := [c] + x + ([d] + "..");
    assert r[|r| - 1] == '.';
  }

  lemma UpIsRest(c: char)
    requires IsSep(c)
    ensures IsRest([c] + "..")
  {
  }

  /** ".." with nothing that it may take away changes nothing. */
  lemma ParentOfNothing(os: Os, a: string, c: char, rest: string)
    requires EndsInName(a) && IsSep(c) && IsRest(rest)
    requires |Names(os, a)| <= Fixed(os, a)
    ensures NormalizePath(os, (a + ([c] + "..")) + rest) == NormalizePath(os, a + rest)
  {
    var up := [c] + "..";
    StillEndsInName(a, c, "..");
    UpIsRest(c);
    hide *;
    StackStays(os, a, c);
    SameNamesSamePath(os, a, up, rest);
  }

  lemma StackStays(os: Os, a: string, c: char)
    requires EndsInName(a) && IsSep(c) && |Names(os, a)| <= Fixed(os, a)
    ensures StackOf(os, a + ([c] + "..")) == StackOf(os, a)
  {
    hide *;
    StackShrinks(os, a, c);
    NamesAreStacked(os, a);
    PoppedIs(StackOf(os, a), if DoubleSlash(Taken(os, a)) then 1 else 0);
  }

  /** Nor does it change anything right at the root. */
  lemma ParentAtTheRoot(os: Os, c: char, rest: string)
    requires IsSep(c) && IsRest(rest) && |rest| >= 2 && !IsSep(rest[1]) && rest[1] != ':'
    ensures NormalizePath(os, ([c] + "..") + rest) == NormalizePath(os, rest)
  {
    UpBegins(c, rest);
    UpTokens(c, rest);
    hide *;
    SameFromTheRoot(os, ([c] + "..") + rest, rest);
  }

  predicate StartsAtTheRoot(path: string) {
    |path| >= 2 && IsSep(path[0]) && !IsSep(path[1]) && path[1] != ':' && !IsBlank(path[|path| - 1])
  }

  lemma SameFromTheRoot(os: Os, up: string, rest: string)
    requires StartsAtTheRoot(up) && StartsAtTheRoot(rest) && Tokens(up) == [".."] + Tokens(rest)
    ensures NormalizePath(os, up) == NormalizePath(os, rest)
  {
    hide *;
    StackFromTheRoot(os, rest);
    StackFromTheRoot(os, up);
    UpIsIgnored(Tokens(rest));
  }

  lemma UpIsIgnored(ts: seq<string>)
    ensures Stack([".."] + ts, false) == Stack(ts, false)
  {
    UpIsEmpty();
    hide *;
    SameStackGoesOn([".."], [], ts, false);
    assert [] + ts == ts;
  }

  lemma UpBegins(c: char, rest: string)
    requires IsSep(c) && IsRest(rest) && |rest| >= 2
    ensures StartsAtTheRoot(([c] + "..") + rest)
    ensures !IsSep(rest[1]) && rest[1] != ':' ==> StartsAtTheRoot(rest)
  {
    var up := ([c] + "..") + rest;
    assert up[|up| - 1] == rest[|rest| - 1] && up[0] == c && up[1] == '.';
  }

  lemma UpIsEmpty()
    ensures Stack([".."], false) == Stack([], false)
  {
  }

  lemma UpTokens(c: char, rest: string)
    requires IsSep(c) && IsRest(rest) && rest != []
    ensures Tokens(([c] + "..") + rest) == [".."] + Tokens(rest)
  {
    TokensOfSepName(c, "..");
    hide Tokens;
    TokensOfBoth([c] + "..", rest);
  }

  lemma StackFromTheRoot(os: Os, path: string)
    requires StartsAtTheRoot(path)
    ensures NormalizePath(os, path) == ConvertPath(os, "/" + Join(Stack(Tokens(path), false)))
  {
    RootIsTaken(os, path);
    hide *;
    StackOfTaken(os, path);
    ConvertKeepsTokens(os, path);
  }

  lemma RootIsTaken(os: Os, path: string)
    requires StartsAtTheRoot(path)
    ensures var p := Taken(os, path);
            p == ConvertPath(os, path) && !DoubleSlash(p) && Prefix(os, p) == "/" && PathTokens(os, p) == Tokens(p)
  {
    var p := ConvertPath(os, path);
    Converted(os, path);
    hide ConvertPath;
    TrimmedAlready(p);
    hide TrimLeft, TrimRight, Tokens, StartWith, Anchored;
    HowItBegins(p);
    AnchoredIs(os, p);
    PrefixIs(os, p);
    hide Prefix;
    assert Taken(os, path) == Home(os, p);
  }

  // ---- Paths without dots ----

  lemma FirstTokenOfDots(path: string)
    requires BeginsWithDots(path)
    ensures !NoDots(Tokens(path))
  {
    var n := if |path| >= 2 && path[1] == '.' then 2 else 1;
    TokenLengthIs(path, n);
    assert path[..n] == if n == 1 then "." else "..";
    assert Tokens(path)[0] in Tokens(path);
  }

  /** A path without "." and ".." keeps all its components, in order. (A leading tilde would be replaced; a
      drive counts as a component if a separator follows it.) */
  lemma PlainPathIsKept(os: Os, path: string)
    requires path == [] || (!IsBlank(path[0]) && !IsBlank(path[|path| - 1]))
    requires NoDots(Tokens(path)) && !BeginsWithTilde(path)
    requires HasDrive(os, path) ==> !IsSep(path[0]) && (|path| == 2 || IsSep(path[2]))
    ensures Names(os, path) == Tokens(path)
  {
    var p := ConvertPath(os, path);
    PlainIsTaken(os, path);
    ConvertKeepsTokens(os, path);
    DriveConverted(os, path);
    NamesAre(os, path);
    hide *;
    PlainTokens(os, p);
    PlainStack(PathTokens(os, p), DoubleSlash(p));
  }

  lemma PlainStack(ts: seq<string>, doubleSlash: bool)
    requires NoDots(ts)
    ensures Stack(ts, doubleSlash) == ts
  {
    PlainNamesStay([], ts, doubleSlash);
    assert [] + ts == ts;
    assert Stack([], doubleSlash) == [];
  }

  lemma DriveConverted(os: Os, path: string)
    ensures var p := ConvertPath(os, path); HasDrive(os, p) == HasDrive(os, path)
    ensures var p := ConvertPath(os, path);
            HasDrive(os, path) && !IsSep(path[0]) && (|path| == 2 || IsSep(path[2])) ==> !IsSep(p[0]) && (|p| == 2 || IsSep(p[2]))
  {
    Converted(os, path);
  }

  lemma PlainIsTaken(os: Os, path: string)
    requires path == [] || (!IsBlank(path[0]) && !IsBlank(path[|path| - 1]))
    requires NoDots(Tokens(path)) && !BeginsWithTilde(path)
    ensures Taken(os, path) == ConvertPath(os, path)
  {
    if BeginsWithDots(path) {
      FirstTokenOfDots(path);
    }
    var p := ConvertPath(os, path);
    Converted(os, path);
    TrimmedAlready(p);
    HowItBegins(p);
    hide StartWith, Tokens, TrimLeft, TrimRight;
    assert BeginsWithDots(p) <==> BeginsWithDots(path);
  }

  lemma PlainTokens(os: Os, p: string)
    requires NoDots(Tokens(p)) && (HasDrive(os, p) ==> !IsSep(p[0]) && (|p| == 2 || IsSep(p[2])))
    ensures NoDots(PathTokens(os, p)) && Tokens(Prefix(os, p)) + PathTokens(os, p) == Tokens(p)
  {
    if HasDrive(os, p) {
      hide *;
      DriveTokens(os, p);
      PartOfPlain(Tokens(Prefix(os, p)), PathTokens(os, p));
    } else {
      NoDrive(os, p);
      hide *;
    }
  }

  lemma NoDrive(os: Os, p: string)
    requires !HasDrive(os, p)
    ensures PathTokens(os, p) == Tokens(p) && Tokens(Prefix(os, p)) + Tokens(p) == Tokens(p)
  {
    hide Tokens, Prefix;
    PrefixIsOneToken(os, p);
    assert Tokens(Prefix(os, p)) == [];
  }

  lemma PartOfPlain(ts: seq<string>, us: seq<string>)
    requires NoDots(ts + us)
    ensures NoDots(us)
  {
    assert forall t <- us :: t in ts + us;
  }

  lemma DriveTokens(os: Os, p: string)
    requires HasDrive(os, p) && !IsSep(p[0]) && (|p| == 2 || IsSep(p[2]))
    ensures Tokens(p) == Tokens(Prefix(os, p)) + PathTokens(os, p)
  {
    DrivePrefix(os, p);
    DriveIsOneToken(p[0]);
    assert p[..2] == [p[0]] + ":";
    hide Prefix, Tokens;
    FirstTokenSplits(p, 2);
  }

  lemma FirstTokenSplits(p: string, n: nat)
    requires 0 < n <= |p| && SepFree(p[..n]) && (n < |p| ==> IsSep(p[n]))
    ensures Tokens(p) == [p[..n]] + Tokens(p[n..])
  {
    assert p[0] == p[..n][0];
    TokenLengthIs(p, n);
  }

  lemma DrivePrefix(os: Os, p: string)
    requires HasDrive(os, p) && !IsSep(p[0])
    ensures Prefix(os, p) == [p[0]] + ":/"
  {
    HowItBegins(p);
    hide StartWith;
    assert "" + ([p[0]] + ":/") == [p[0]] + ":/";
  }

  /** Blanks around a path do not count. */
  lemma BlanksAreTrimmed(os: Os, before: string, path: string, after: string)
    requires (forall c <- before :: IsBlank(c)) && (forall c <- after :: IsBlank(c))
    ensures NormalizePath(os, before + path + after) == NormalizePath(os, path)
  {
    ConvertAppends(os, before + path, after);
    ConvertAppends(os, before, path);
    BlanksConvert(os, before);
    BlanksConvert(os, after);
    var p := ConvertPath(os, path);
    hide ConvertPath;
    TrimIgnoresBlanks(before, p, after);
    hide TrimLeft, TrimRight, Anchored;
  }

  lemma {:induction false} BlanksConvert(os: Os, s: string)
    requires forall c <- s :: IsBlank(c)
    ensures ConvertPath(os, s) == s
  {
    Converted(os, s);
    assert forall i | 0 <= i < |s| :: s[i] in s;
  }

  lemma TrimIgnoresBlanks(before: string, s: string, after: string)
    requires (forall c <- before :: IsBlank(c)) && (forall c <- after :: IsBlank(c))
    ensures TrimRight(TrimLeft(before + s + after)) == TrimRight(TrimLeft(s))
  {
    assert before + s + after == before + (s + after);
    TrimLeftSkips(before, s + after);
    if TrimLeft(s) == [] {
      TrimLeftEmpty(s);
      TrimLeftSkips(s, after);
      TrimLeftSkips(after, []);
      assert after + [] == after;
    } else {
      TrimLeftAppends(s, after);
      TrimRightSkips(TrimLeft(s), after);
    }
  }

  lemma {:induction false} TrimLeftSkips(before: string, s: string)
    requires forall c <- before :: IsBlank(c)
    ensures TrimLeft(before + s) == TrimLeft(s)
  {
    if before == [] {
      assert before + s == s;
    } else {
      assert before[0] in before && forall c <- before[1..] :: c in before;
      assert (before + s)[1..] == before[1..] + s;
      TrimLeftSkips(before[1..], s);
    }
  }

  lemma {:induction false} TrimLeftEmpty(s: string)
    requires TrimLeft(s) == []
    ensures forall c <- s :: IsBlank(c)
  {
    if s != [] {
      TrimLeftEmpty(s[1..]);
      assert s == [s[0]] + s[1..];
    }
  }

  lemma {:induction false} TrimLeftAppends(s: string, after: string)
    requires TrimLeft(s) != []
    ensures TrimLeft(s + after) == TrimLeft(s) + after
  {
    if s != [] && IsBlank(s[0]) {
      assert (s + after)[1..] == s[1..] + after;
      TrimLeftAppends(s[1..], after);
    }
  }

  lemma {:induction false} TrimRightSkips(s: string, after: string)
    requires forall c <- after :: IsBlank(c)
    ensures TrimRight(s + after) == TrimRight(s)
    decreases |after|
  {
    if after == [] {
      assert s + after == s;
    } else {
      var n := |after| - 1;
      assert after[n] in after && forall c <- after[..n] :: c in after;
      assert (s + after)[..|s + after| - 1] == s + after[..n];
      TrimRightSkips(s, after[..n]);
    }
  }
}
