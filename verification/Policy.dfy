/** Security policies and how a new version overwrites an old one. */
module Policy {
  import opened Text

  const POLICY_WORDS: nat := 39
  const VER2_WORDS: nat := 22
  const VER3_FLAG: nat := 38

  /** The policy structure as its words; the last one says whether it is of version 3. */
  type PolicyWords = p: seq<nat> | |p| == POLICY_WORDS witness seq(POLICY_WORDS, i => 0)

  predicate IsVer3(p: PolicyWords) { p[VER3_FLAG] != 0 }

  /** What one call of OverwritePolicy leaves in the target slot. */
  function Overwrite(target: Option<PolicyWords>, p: Option<PolicyWords>): Option<PolicyWords> {
    if p.None? then None
    else if IsVer3(p.value) || target.None? then p
    else Some(p.value[..VER2_WORDS] + target.value[VER2_WORDS..])
  }

  function OverwriteAll(target: Option<PolicyWords>, calls: seq<Option<PolicyWords>>): Option<PolicyWords> {
    if calls == [] then target
    else Overwrite(OverwriteAll(target, calls[..|calls| - 1]), calls[|calls| - 1])
  }

  function Somes(ps: seq<PolicyWords>): seq<Option<PolicyWords>> {
    seq(|ps|, i requires 0 <= i < |ps| => Some(ps[i]))
  }

  /** `base` is the most recent policy that was of version 3 or met an empty target. */
  predicate IsLastBase(ps: seq<PolicyWords>, base: nat) {
    && base < |ps|
    && (base == 0 || IsVer3(ps[base]))
    && forall i | base < i < |ps| :: !IsVer3(ps[i])
  }

  /** The closed form: after the last erase, the words of version 2 are the most recent policy's, and
      all others are those of the most recent base. */
  lemma OverwriteClosedForm(target: Option<PolicyWords>, before: seq<Option<PolicyWords>>, ps: seq<PolicyWords>)
    ensures var result := OverwriteAll(target, before + [None] + Somes(ps));
            if ps == [] then result == None
            else exists base: nat | IsLastBase(ps, base) ::
                   result == Some(ps[|ps| - 1][..VER2_WORDS] + ps[base][VER2_WORDS..])
  {
    OverwriteAppends(target, before + [None], Somes(ps));
    assert (before + [None])[..|before|] == before;
    OverwriteFromEmpty(ps);
  }

  lemma {:induction false} OverwriteFromEmpty(ps: seq<PolicyWords>)
    ensures var result := OverwriteAll(None, Somes(ps));
            if ps == [] then result == None
            else exists base: nat | IsLastBase(ps, base) ::
                   result == Some(ps[|ps| - 1][..VER2_WORDS] + ps[base][VER2_WORDS..])
  {
    if ps != [] {
      var n := |ps| - 1;
      var init := ps[..n];
      OverwriteFromEmpty(init);
      assert Somes(ps)[..n] == Somes(init);
      if n == 0 || IsVer3(ps[n]) {
        assert IsLastBase(ps, n);
        assert ps[n] == ps[n][..VER2_WORDS] + ps[n][VER2_WORDS..];
      } else {
        var base: nat :| IsLastBase(init, base) &&
          OverwriteAll(None, Somes(init)) == Some(init[n - 1][..VER2_WORDS] + init[base][VER2_WORDS..]);
        assert IsLastBase(ps, base);
        assert (init[n - 1][..VER2_WORDS] + init[base][VER2_WORDS..])[VER2_WORDS..] == ps[base][VER2_WORDS..];
      }
    }
  }

  lemma {:induction false} OverwriteAppends(target: Option<PolicyWords>, xs: seq<Option<PolicyWords>>, ys: seq<Option<PolicyWords>>)
    ensures OverwriteAll(target, xs + ys) == OverwriteAll(OverwriteAll(target, xs), ys)
  {
    if ys == [] {
      assert xs + ys == xs;
    } else {
      var n := |ys| - 1;
      assert (xs + ys)[..|xs + ys| - 1] == xs + ys[..n];
      OverwriteAppends(target, xs, ys[..n]);
    }
  }

  /** Reading a policy and writing it back changes nothing. */
  lemma OverwriteWithSelf(target: Option<PolicyWords>)
    ensures Overwrite(target, target) == target
  {
    if target.Some? {
      assert target.value == target.value[..VER2_WORDS] + target.value[VER2_WORDS..];
    }
  }

  ghost function View(p: array?<nat>): Option<PolicyWords>
    reads p
    requires p != null ==> p.Length == POLICY_WORDS
  {
    if p == null then None else Some(p[..])
  }

  method ClonePolicy(p: array<nat>) returns (clone: array<nat>)
    requires p.Length == POLICY_WORDS
    ensures fresh(clone) && clone.Length == POLICY_WORDS && clone[..] == p[..]
  {
    clone := new nat[POLICY_WORDS](i requires 0 <= i < POLICY_WORDS reads p => p[i]);
  }

  /** The code on heap blocks. The two arguments must be different blocks: a version 3 policy is
      cloned only after the old target has been freed. */
  method OverwritePolicy(target: array?<nat>, p: array?<nat>) returns (newTarget: array?<nat>)
    requires target != null ==> target.Length == POLICY_WORDS && target != p
    requires p != null ==> p.Length == POLICY_WORDS
    modifies target
    ensures newTarget != null ==> newTarget.Length == POLICY_WORDS && newTarget != p
    ensures View(newTarget) == Overwrite(old(View(target)), View(p))
    ensures newTarget != target ==> newTarget == null || fresh(newTarget)
  {
    newTarget := target;
    if p == null {
      newTarget := null;
    } else if p[VER3_FLAG] != 0 {
      newTarget := ClonePolicy(p);
    } else if target == null {
      newTarget := ClonePolicy(p);
    } else {
      ghost var was := target[..];
      assert old(View(target)) == Some(was);
      forall i | 0 <= i < VER2_WORDS {
        target[i] := p[i];
      }
      assert target[..] == p[..][..VER2_WORDS] + was[VER2_WORDS..];
    }
  }
}
