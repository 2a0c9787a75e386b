/** Strings as the Mayaqua string library compares them, and a few helpers. */
module Text {
  datatype Option<+T> = None | Some(value: T)

  const UINT_LIMIT: nat := 0x1_0000_0000
  const UINT64_LIMIT: nat := 0x1_0000_0000_0000_0000

  function ToUpper(c: char): char {
    if 'a' <= c <= 'z' then (c as int - 32) as char else c
  }

  /** The case-folded form under which names are compared. */
  function Fold(s: string): (r: string)
    ensures |r| == |s|
  {
    if s == [] then [] else [ToUpper(s[0])] + Fold(s[1..])
  }

  /** Two names the program treats as equal. */
  predicate SameName(a: string, b: string) {
    Fold(a) == Fold(b)
  }

  /** The same character, or the same ASCII letter in the other case. */
  predicate SameLetter(c: char, d: char) {
    || c == d
    || ('a' <= c <= 'z' && 'A' <= d <= 'Z' && c as int - 'a' as int == d as int - 'A' as int)
    || ('a' <= d <= 'z' && 'A' <= c <= 'Z' && d as int - 'a' as int == c as int - 'A' as int)
  }

  /** Names are equal exactly if they are letter by letter, in any case. */
  lemma {:induction false} SameNameIgnoresCase(a: string, b: string)
    ensures SameName(a, b) <==> |a| == |b| && forall i | 0 <= i < |a| :: SameLetter(a[i], b[i])
    decreases |a|
  {
    if |a| == |b| && a != [] {
      SameNameIgnoresCase(a[1..], b[1..]);
      FirstsAndRests(Fold(a), Fold(b));
      assert Fold(a)[1..] == Fold(a[1..]) && Fold(b)[1..] == Fold(b[1..]);
      assert forall i | 0 <= i < |a| - 1 :: a[1..][i] == a[i + 1] && b[1..][i] == b[i + 1];
      assert ToUpper(a[0]) == ToUpper(b[0]) <==> SameLetter(a[0], b[0]);
      hide ToUpper, SameLetter;
      if forall i | 0 <= i < |a| - 1 :: SameLetter(a[1..][i], b[1..][i]) {
        forall i | 0 < i < |a| ensures SameLetter(a[i], b[i]) {
          assert SameLetter(a[1..][i - 1], b[1..][i - 1]);
        }
      }
    }
  }

  lemma FirstsAndRests(s: string, t: string)
    requires |s| == |t| > 0
    ensures s == t <==> s[0] == t[0] && s[1..] == t[1..]
  {
    assert s == [s[0]] + s[1..] && t == [t[0]] + t[1..];
  }

  /** The three-way comparison of ASCII texts: the end of a string sorts before every character. (Where
      `char` is signed the library puts bytes from 0x80 on before it, which is another total order on the
      same classes of equal names.) */
  function StrCmpi(a: string, b: string): int {
    if a == [] && b == [] then 0
    else if a == [] then -1
    else if b == [] then 1
    else if ToUpper(a[0]) > ToUpper(b[0]) then 1
    else if ToUpper(a[0]) < ToUpper(b[0]) then -1
    else StrCmpi(a[1..], b[1..])
  }

  lemma {:induction false} StrCmpiZeroMeansSameName(a: string, b: string)
    ensures StrCmpi(a, b) == 0 <==> SameName(a, b)
  {
    if a != [] && b != [] {
      StrCmpiZeroMeansSameName(a[1..], b[1..]);
      assert Fold(a)[0] == ToUpper(a[0]) && Fold(b)[0] == ToUpper(b[0]);
      assert Fold(a)[1..] == Fold(a[1..]) && Fold(b)[1..] == Fold(b[1..]);
    }
  }

  lemma {:induction false} StrCmpiAntisymmetric(a: string, b: string)
    ensures StrCmpi(a, b) == -StrCmpi(b, a)
  {
    if a != [] && b != [] {
      StrCmpiAntisymmetric(a[1..], b[1..]);
    }
  }

  lemma {:induction false} StrCmpiTransitive(a: string, b: string, c: string)
    requires StrCmpi(a, b) <= 0 && StrCmpi(b, c) <= 0
    requires StrCmpi(a, b) < 0 || StrCmpi(b, c) < 0
    ensures StrCmpi(a, c) < 0
  {
    if a != [] && b != [] && c != [] {
      if ToUpper(a[0]) == ToUpper(b[0]) && ToUpper(b[0]) == ToUpper(c[0]) {
        StrCmpiTransitive(a[1..], b[1..], c[1..]);
      }
    }
  }

  /** The order is decided at the first place where the names differ in more than case; a name sorts behind
      its own beginnings. */
  lemma {:induction false} StrCmpiIsAlphabetical(a: string, b: string, k: nat)
    requires k <= |a| && k <= |b| && forall i | 0 <= i < k :: ToUpper(a[i]) == ToUpper(b[i])
    requires k < |a| && k < |b| ==> ToUpper(a[k]) != ToUpper(b[k])
    ensures StrCmpi(a, b) < 0 <==> k < |b| && (k == |a| || ToUpper(a[k]) < ToUpper(b[k]))
    ensures StrCmpi(a, b) > 0 <==> k < |a| && (k == |b| || ToUpper(a[k]) > ToUpper(b[k]))
  {
    if k > 0 {
      StrCmpiIsAlphabetical(a[1..], b[1..], k - 1);
    }
  }

  predicate StartWith(s: string, key: string) {
    0 < |key| <= |s| && StrCmpi(s[..|key|], key) == 0
  }

  predicate EndWith(s: string, key: string) {
    |key| <= |s| && StrCmpi(s[|s| - |key|..], key) == 0
  }

  /** Beginnings and ends are compared ignoring case; nothing begins with the empty key. */
  lemma StartsAndEnds(s: string, key: string)
    ensures StartWith(s, key) <==> 0 < |key| <= |s| && SameName(s[..|key|], key)
    ensures EndWith(s, key) <==> |key| <= |s| && SameName(s[|s| - |key|..], key)
  {
    if 0 < |key| <= |s| {
      StrCmpiZeroMeansSameName(s[..|key|], key);
    }
    if |key| <= |s| {
      StrCmpiZeroMeansSameName(s[|s| - |key|..], key);
    }
  }

  /** Nothing is left once blanks are trimmed from both ends. */
  predicate IsEmptyStr(s: string) {
    forall i | 0 <= i < |s| :: s[i] == ' ' || s[i] == '\t'
  }

  /** Taking one element out of a list without repetitions. */
  lemma RemovedMembers<T>(xs: seq<T>, k: nat)
    requires k < |xs| && forall i, j | 0 <= i < j < |xs| :: xs[i] != xs[j]
    ensures var ys := xs[..k] + xs[k + 1..];
            && (forall x :: x in ys <==> x in xs && x != xs[k])
            && (forall i, j | 0 <= i < j < |ys| :: ys[i] != ys[j])
  {
    var ys := xs[..k] + xs[k + 1..];
    assert forall j | 0 <= j < |ys| :: ys[j] == xs[if j < k then j else j + 1];
    forall x | x in xs && x != xs[k] ensures x in ys {
      var j :| 0 <= j < |xs| && xs[j] == x;
      assert ys[if j < k then j else j - 1] == x;
    }
  }
}
