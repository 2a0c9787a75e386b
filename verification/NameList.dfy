/** Lists kept sorted by case-folded name, as the account database keeps its users and groups. */
module NameList {
  import opened Text

  /** Strictly increasing names: sorted and free of duplicates. */
  ghost predicate Sorted<T>(list: seq<T>, name: T -> string) {
    forall i, j | 0 <= i < j < |list| :: StrCmpi(name(list[i]), name(list[j])) < 0
  }

  /** The abstract value of a list: a map keyed by folded name. */
  ghost function Directory<T>(list: seq<T>, name: T -> string): map<string, T> {
    if list == [] then map[]
    else Directory(list[..|list| - 1], name)[Fold(name(list[|list| - 1])) := list[|list| - 1]]
  }

  function InsertAt<T>(list: seq<T>, pos: nat, x: T): seq<T>
    requires pos <= |list|
  {
    list[..pos] + [x] + list[pos..]
  }

  function RemoveAt<T>(list: seq<T>, pos: nat): seq<T>
    requires pos < |list|
  {
    list[..pos] + list[pos + 1..]
  }

  lemma {:induction false} DirectoryKeys<T>(list: seq<T>, name: T -> string, key: string)
    ensures key in Directory(list, name) <==> exists i :: 0 <= i < |list| && Fold(name(list[i])) == key
  {
    hide Fold;
    if list != [] {
      var n := |list| - 1;
      DirectoryKeys(list[..n], name, key);
      if i :| 0 <= i < |list| && Fold(name(list[i])) == key {
        if i < n {
          assert list[..n][i] == list[i];
        }
      }
    }
  }

  lemma {:induction false} DirectoryValues<T>(list: seq<T>, name: T -> string, key: string)
    requires key in Directory(list, name)
    ensures Directory(list, name)[key] in list && Fold(name(Directory(list, name)[key])) == key
  {
    hide Fold;
    var n := |list| - 1;
    if key != Fold(name(list[n])) {
      DirectoryValues(list[..n], name, key);
    }
  }

  lemma {:induction false} DirectoryAt<T>(list: seq<T>, name: T -> string, i: nat)
    requires Sorted(list, name) && i < |list|
    ensures Fold(name(list[i])) in Directory(list, name)
    ensures Directory(list, name)[Fold(name(list[i]))] == list[i]
  {
    hide Fold, StrCmpi;
    var n := |list| - 1;
    if i < n {
      DirectoryAt(list[..n], name, i);
      StrCmpiZeroMeansSameName(name(list[i]), name(list[n]));
    }
  }

  /** Inserting where the list stays sorted adds one entry to the map. */
  lemma {:induction false} InsertExtendsDirectory<T>(list: seq<T>, name: T -> string, pos: nat, x: T)
    requires pos <= |list| && Sorted(InsertAt(list, pos, x), name)
    ensures Directory(InsertAt(list, pos, x), name) == Directory(list, name)[Fold(name(x)) := x]
    ensures Fold(name(x)) !in Directory(list, name)
  {
    hide Fold, StrCmpi;
    var list', n := InsertAt(list, pos, x), |list|;
    if pos == n {
      assert list'[..n] == list;
    } else {
      assert list'[..n] == InsertAt(list[..n - 1], pos, x);
      assert list'[pos] == x && list'[n] == list[n - 1];
      InsertExtendsDirectory(list[..n - 1], name, pos, x);
    }
    AbsentBesideEqual(list, name, pos, x);
  }

  lemma AbsentBesideEqual<T>(list: seq<T>, name: T -> string, pos: nat, x: T)
    requires pos <= |list| && Sorted(InsertAt(list, pos, x), name)
    ensures Fold(name(x)) !in Directory(list, name)
    ensures forall i | 0 <= i < |list| :: Fold(name(list[i])) != Fold(name(x))
  {
    hide Fold, StrCmpi, Directory;
    var list' := InsertAt(list, pos, x);
    assert list'[pos] == x;
    forall i | 0 <= i < |list| ensures Fold(name(list[i])) != Fold(name(x)) {
      if i < pos {
        assert list'[i] == list[i];
        StrCmpiZeroMeansSameName(name(list[i]), name(x));
      } else {
        assert list'[i + 1] == list[i];
        StrCmpiZeroMeansSameName(name(x), name(list[i]));
      }
    }
    DirectoryKeys(list, name, Fold(name(x)));
  }

  lemma RemoveKeepsSorted<T>(list: seq<T>, name: T -> string, pos: nat)
    requires pos < |list| && Sorted(list, name)
    ensures Sorted(RemoveAt(list, pos), name) && pos <= |RemoveAt(list, pos)|
  {
    hide Fold, StrCmpi;
    var list' := RemoveAt(list, pos);
    forall i, j | 0 <= i < j < |list'| ensures StrCmpi(name(list'[i]), name(list'[j])) < 0 {
      var i', j' := if i < pos then i else i + 1, if j < pos then j else j + 1;
      assert list'[i] == list[i'] && list'[j] == list[j'];
    }
  }

  lemma InsertUndoesRemove<T>(list: seq<T>, pos: nat)
    requires pos < |list|
    ensures InsertAt(RemoveAt(list, pos), pos, list[pos]) == list
  {
    assert list == list[..pos] + [list[pos]] + list[pos + 1..];
    assert RemoveAt(list, pos)[..pos] == list[..pos];
    assert RemoveAt(list, pos)[pos..] == list[pos + 1..];
  }

  /** Removing an entry removes exactly its key. */
  lemma RemoveShrinksDirectory<T>(list: seq<T>, name: T -> string, pos: nat)
    requires pos < |list| && Sorted(list, name)
    ensures Sorted(RemoveAt(list, pos), name)
    ensures Directory(RemoveAt(list, pos), name) == Directory(list, name) - {Fold(name(list[pos]))}
  {
    hide Sorted, Directory, RemoveAt, InsertAt;
    RemoveKeepsSorted(list, name, pos);
    InsertUndoesRemove(list, pos);
    InsertExtendsDirectory(RemoveAt(list, pos), name, pos, list[pos]);
  }

  /** The binary search shared by look-up and insertion: an entry with this name, or the place where
      one belongs. */
  method FindSlot<T>(list: seq<T>, name: T -> string, key: string) returns (found: bool, pos: nat)
    requires Sorted(list, name)
    ensures found <==> Fold(key) in Directory(list, name)
    ensures found ==> pos < |list| && Directory(list, name)[Fold(key)] == list[pos]
    ensures found ==> SameName(name(list[pos]), key)
    ensures !found ==> pos <= |list| && forall x :: SameName(name(x), key) ==> Sorted(InsertAt(list, pos, x), name)
  {
    var low, high := 0, |list| - 1;
    while low <= high
      invariant 0 <= low <= high + 1 <= |list|
      invariant forall i | 0 <= i < low :: StrCmpi(name(list[i]), key) < 0
      invariant forall i | high < i < |list| :: StrCmpi(name(list[i]), key) > 0
    {
      var middle := (low + high) / 2;
      var order := StrCmpi(name(list[middle]), key);
      if order == 0 {
        StrCmpiZeroMeansSameName(name(list[middle]), key);
        DirectoryAt(list, name, middle);
        return true, middle;
      } else if order > 0 {
        forall i | middle <= i < |list| ensures StrCmpi(name(list[i]), key) > 0 {
          StrCmpiAntisymmetric(name(list[middle]), key);
          if middle < i {
            StrCmpiTransitive(key, name(list[middle]), name(list[i]));
            StrCmpiAntisymmetric(key, name(list[i]));
          }
        }
        high := middle - 1;
      } else {
        forall i | 0 <= i <= middle ensures StrCmpi(name(list[i]), key) < 0 {
          if i < middle {
            StrCmpiTransitive(name(list[i]), name(list[middle]), key);
          }
        }
        low := middle + 1;
      }
    }
    forall x | SameName(name(x), key) ensures Sorted(InsertAt(list, low, x), name) {
      SlotKeepsSorted(list, name, key, low, x);
    }
    DirectoryKeys(list, name, Fold(key));
    if i :| 0 <= i < |list| && Fold(name(list[i])) == Fold(key) {
      StrCmpiZeroMeansSameName(name(list[i]), key);
      assert false;
    }
    return false, low;
  }

  /** Inserts a new name at its place. */
  method Insert<T>(list: seq<T>, name: T -> string, x: T) returns (list': seq<T>)
    requires Sorted(list, name) && Fold(name(x)) !in Directory(list, name)
    ensures Sorted(list', name) && Directory(list', name) == Directory(list, name)[Fold(name(x)) := x]
    ensures |list'| == |list| + 1 && forall y :: y in list' <==> y == x || y in list
    ensures multiset(list') == multiset(list) + multiset{x}
    ensures x !in list
  {
    hide Sorted, Directory, InsertAt, StrCmpi, Fold;
    var found, pos := FindSlot(list, name, name(x));
    InsertExtendsDirectory(list, name, pos, x);
    AbsentBesideEqual(list, name, pos, x);
    InsertedElements(list, pos, x);
    list' := InsertAt(list, pos, x);
  }

  lemma InsertedElements<T>(list: seq<T>, pos: nat, x: T)
    requires pos <= |list|
    ensures var list' := InsertAt(list, pos, x);
            && |list'| == |list| + 1 && (forall y :: y in list' <==> y == x || y in list)
            && multiset(list') == multiset(list) + multiset{x}
  {
    assert list == list[..pos] + list[pos..];
  }

  /** Deletes a listed element, found by identity. */
  method Delete<T(==)>(list: seq<T>, name: T -> string, x: T) returns (found: bool, list': seq<T>)
    requires Sorted(list, name)
    ensures found <==> x in list
    ensures !found ==> list' == list
    ensures found ==> Sorted(list', name) && Directory(list', name) == Directory(list, name) - {Fold(name(x))}
    ensures found ==> |list'| == |list| - 1 && forall y :: y in list' <==> y != x && y in list
    ensures found ==> multiset(list) == multiset(list') + multiset{x}
  {
    var pos := 0;
    while pos < |list|
      invariant pos <= |list|
      invariant x !in list[..pos]
    {
      if list[pos] == x {
        list' := RemoveAt(list, pos);
        RemoveShrinksDirectory(list, name, pos);
        RemovedElements(list, name, pos);
        return true, list';
      }
      pos := pos + 1;
    }
    return false, list;
  }

  lemma RemovedElements<T>(list: seq<T>, name: T -> string, pos: nat)
    requires pos < |list| && Sorted(list, name)
    ensures forall y :: y in RemoveAt(list, pos) <==> y != list[pos] && y in list
    ensures multiset(list) == multiset(RemoveAt(list, pos)) + multiset{list[pos]}
  {
    hide Fold, StrCmpi, Directory;
    var list' := RemoveAt(list, pos);
    InsertUndoesRemove(list, pos);
    assert list' == list'[..pos] + list'[pos..];
    if list[pos] in list' {
      var i :| 0 <= i < |list'| && list'[i] == list[pos];
      var j := if i < pos then i else i + 1;
      assert list[j] == list[pos] && j != pos;
      StrCmpiZeroMeansSameName(name(list[pos]), name(list[pos]));
    }
  }

  lemma SlotKeepsSorted<T>(list: seq<T>, name: T -> string, key: string, pos: nat, x: T)
    requires Sorted(list, name) && pos <= |list| && SameName(name(x), key)
    requires forall i | 0 <= i < pos :: StrCmpi(name(list[i]), key) < 0
    requires forall i | pos <= i < |list| :: StrCmpi(name(list[i]), key) > 0
    ensures Sorted(InsertAt(list, pos, x), name)
  {
    hide StrCmpi, Fold;
    var list' := InsertAt(list, pos, x);
    forall i, j | 0 <= i < j < |list'| ensures StrCmpi(name(list'[i]), name(list'[j])) < 0 {
      if i == pos {
        assert list'[i] == x && list'[j] == list[j - 1];
        BesideKey(key, name(x), name(list[j - 1]));
      } else if j == pos {
        assert list'[i] == list[i] && list'[j] == x;
        BesideKey(key, name(x), name(list[i]));
      } else {
        assert list'[i] == list[if i < pos then i else i - 1];
        assert list'[j] == list[if j < pos then j else j - 1];
      }
    }
  }

  /** A name equal to the key stands where the key does. */
  lemma BesideKey(key: string, x: string, other: string)
    requires SameName(x, key)
    ensures StrCmpi(other, key) < 0 ==> StrCmpi(other, x) < 0
    ensures StrCmpi(other, key) > 0 ==> StrCmpi(x, other) < 0
  {
    hide StrCmpi, Fold;
    StrCmpiZeroMeansSameName(x, key);
    StrCmpiZeroMeansSameName(key, x);
    if StrCmpi(other, key) < 0 {
      StrCmpiTransitive(other, key, x);
    } else if StrCmpi(other, key) > 0 {
      StrCmpiAntisymmetric(other, key);
      StrCmpiTransitive(x, key, other);
    }
  }
}
