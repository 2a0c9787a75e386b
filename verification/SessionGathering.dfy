/** Collecting the sessions of a hub from all cluster members while members come and go. */
module SessionGathering {
  import opened Text

  type MemberId = nat

  /** The outside world: the controller's member list as it stands in each round of the loop, which
      member is the controller itself, and what each other member then answers. The list changes only
      between rounds, while its lock is released. */
  datatype World<!Item> = World(members: nat -> seq<MemberId>, isMe: MemberId -> bool, reply: (MemberId, nat) -> seq<Item>)

  /** The session table of one answer. */
  class EnumSession<Item(0)> {
    var sessions: array<Item>

    constructor ()
      ensures sessions.Length == 0 && fresh(sessions)
    {
      sessions := new Item[0];
    }
  }

  method FromReply<Item(0)>(items: seq<Item>) returns (t: EnumSession<Item>)
    ensures fresh(t) && fresh(t.sessions) && t.sessions[..] == items
  {
    t := new EnumSession<Item>();
    t.sessions := new Item[|items|](i requires 0 <= i < |items| => items[i]);
  }

  /** Grows the table and copies the other one behind it. */
  method AdjoinRpcEnumSession<Item(0)>(dest: EnumSession<Item>, src: EnumSession<Item>)
    requires dest != src && dest.sessions != src.sessions
    modifies dest
    ensures dest.sessions[..] == old(dest.sessions[..]) + src.sessions[..]
    ensures dest.sessions == old(dest.sessions) || fresh(dest.sessions)
  {
    if src.sessions.Length == 0 {
      assert src.sessions[..] == [];
      return;
    }
    var oldNum := dest.sessions.Length;
    var grown := new Item[oldNum + src.sessions.Length];
    forall i | 0 <= i < oldNum {
      grown[i] := dest.sessions[i];
    }
    assert grown[..oldNum] == dest.sessions[..];
    var n := 0;
    for i := oldNum to grown.Length
      modifies grown
      invariant n == i - oldNum
      invariant grown[..i] == dest.sessions[..] + src.sessions[..n]
    {
      grown[i] := src.sessions[n];
      n := n + 1;
    }
    assert grown[..grown.Length] == grown[..] && src.sessions[..n] == src.sessions[..];
    dest.sessions := grown;
  }

  // ---- One round ----

  /** The first member that has not been visited yet. */
  function FirstNew(members: seq<MemberId>, visited: seq<MemberId>): (f: Option<MemberId>)
    ensures f.Some? ==> f.value in members && f.value !in visited
    ensures f.None? ==> forall m <- members :: m in visited
  {
    if members == [] then None
    else if members[0] !in visited then Some(members[0])
    else FirstNew(members[1..], visited)
  }

  /** Each visited member was the first new one of the list of its round. */
  ghost predicate VisitsFrom<Item>(w: World<Item>, visited: seq<MemberId>) {
    forall r | 0 <= r < |visited| :: FirstNew(w.members(r), visited[..r]) == Some(visited[r])
  }

  function Answer<Item>(w: World<Item>, m: MemberId, r: nat): seq<Item> {
    if w.isMe(m) then [] else w.reply(m, r)
  }

  /** The answers of the members, in the order of the visits. */
  function Answers<Item>(w: World<Item>, visited: seq<MemberId>): seq<Item> {
    if visited == [] then []
    else
      var n := |visited| - 1;
      Answers(w, visited[..n]) + Answer(w, visited[n], n)
  }

  method ScanForNew(members: seq<MemberId>, visited: seq<MemberId>) returns (f: Option<MemberId>)
    ensures f == FirstNew(members, visited)
  {
    for i := 0 to |members|
      invariant FirstNew(members[i..], visited) == FirstNew(members, visited)
    {
      assert members[i..][0] == members[i] && members[i..][1..] == members[i + 1..];
      if members[i] !in visited {
        return Some(members[i]);
      }
    }
    assert members[|members|..] == [];
    return None;
  }

  method VisitMember<Item(0)>(w: World<Item>, t: EnumSession<Item>, m: MemberId, r: nat)
    modifies t
    ensures t.sessions[..] == old(t.sessions[..]) + Answer(w, m, r)
    ensures t.sessions == old(t.sessions) || fresh(t.sessions)
  {
    if !w.isMe(m) {
      var tmp := FromReply(w.reply(m, r));
      AdjoinRpcEnumSession(t, tmp);
    }
  }

  /**
   The loop of the controller. It ends if no more than finitely many members ever show up. No member
   is visited twice, in each round the first one not yet visited is, and at the end all members then
   listed have been visited; the table holds the local sessions and then all answers in that order.
   */
  method SiEnumSessionMain<Item(0)>(w: World<Item>, local: seq<Item>, isController: bool, ghost everyone: set<MemberId>)
    returns (t: EnumSession<Item>, visited: seq<MemberId>)
    requires forall r: nat, m | m in w.members(r) :: m in everyone
    ensures VisitsFrom(w, visited) && (forall j, k | 0 <= j < k < |visited| :: visited[j] != visited[k])
    ensures isController ==> forall m <- w.members(|visited|) :: m in visited
    ensures t.sessions[..] == if isController then local + Answers(w, visited) else local
    ensures |visited| <= |everyone|
  {
    t := FromReply(local);
    visited := [];
    assert local + Answers(w, []) == local && InOrder(w, [], everyone);
    hide Answers, Answer, FirstNew, InOrder;
    if isController {
      while true
        invariant fresh(t) && fresh(t.sessions)
        invariant InOrder(w, visited, everyone)
        invariant t.sessions[..] == local + Answers(w, visited)
        decreases |everyone| - |visited|
      {
        VisitsAreFew(w, visited, everyone);
        var r := |visited|;
        var f := ScanForNew(w.members(r), visited);
        if f.None? {
          break;
        }
        OneMoreVisit(w, visited, everyone, f.value);
        OneMoreAnswer(w, visited, f.value, local);
        visited := visited + [f.value];
        VisitsAreFew(w, visited, everyone);
        VisitMember(w, t, f.value, r);
      }
    }
    VisitsAreFew(w, visited, everyone);
  }

  /** What the loop keeps. */
  ghost predicate InOrder<Item>(w: World<Item>, visited: seq<MemberId>, everyone: set<MemberId>) {
    VisitsFrom(w, visited) && (forall j, k | 0 <= j < k < |visited| :: visited[j] != visited[k]) && forall m <- visited :: m in everyone
  }

  lemma OneMoreVisit<Item>(w: World<Item>, visited: seq<MemberId>, everyone: set<MemberId>, m: MemberId)
    requires InOrder(w, visited, everyone) && FirstNew(w.members(|visited|), visited) == Some(m) && m in everyone
    ensures InOrder(w, visited + [m], everyone)
  {
    var after := visited + [m];
    assert m !in visited;
    hide FirstNew;
    forall r | 0 <= r < |after| ensures FirstNew(w.members(r), after[..r]) == Some(after[r]) {
      assert after[..r] == visited[..r];
    }
  }

  lemma OneMoreAnswer<Item>(w: World<Item>, visited: seq<MemberId>, m: MemberId, rows: seq<Item>)
    ensures rows + Answers(w, visited + [m]) == (rows + Answers(w, visited)) + Answer(w, m, |visited|)
  {
    hide Answer;
    assert (visited + [m])[..|visited|] == visited;
  }

  lemma VisitsAreFew<Item>(w: World<Item>, visited: seq<MemberId>, everyone: set<MemberId>)
    requires InOrder(w, visited, everyone)
    ensures VisitsFrom(w, visited) && (forall j, k | 0 <= j < k < |visited| :: visited[j] != visited[k])
    ensures |visited| <= |everyone|
  {
    hide VisitsFrom;
    DistinctAreFew(visited, everyone);
  }

  lemma {:induction false} DistinctAreFew(visited: seq<MemberId>, everyone: set<MemberId>)
    requires forall j, k | 0 <= j < k < |visited| :: visited[j] != visited[k]
    requires forall m <- visited :: m in everyone
    ensures |visited| <= |everyone|
    decreases |visited|
  {
    if visited != [] {
      var n := |visited| - 1;
      DistinctAreFew(visited[..n], everyone - {visited[n]});
    }
  }

  // ---- What follows ----

  /** The rows of each visit follow those of the visits before it: a visit to the controller itself adds none,
      any other the member's reply, whole. */
  lemma RowsOfVisit<Item>(w: World<Item>, visited: seq<MemberId>, r: nat)
    requires r < |visited|
    ensures Answers(w, []) == []
    ensures w.isMe(visited[r]) ==> Answers(w, visited[..r + 1]) == Answers(w, visited[..r])
    ensures !w.isMe(visited[r]) ==> Answers(w, visited[..r + 1]) == Answers(w, visited[..r]) + w.reply(visited[r], r)
  {
    assert visited[..r + 1][..r] == visited[..r];
  }

  /** A member that stays in the list as long as the loop runs is visited, and once. */
  lemma StayingMemberIsVisitedOnce<Item>(w: World<Item>, visited: seq<MemberId>, m: MemberId)
    requires VisitsFrom(w, visited) && FirstNew(w.members(|visited|), visited).None?
    requires forall r: nat | r <= |visited| :: m in w.members(r)
    ensures exists r :: 0 <= r < |visited| && visited[r] == m && forall k | 0 <= k < |visited| && visited[k] == m :: k == r
  {
    var r :| 0 <= r < |visited| && visited[r] == m;
    forall k | 0 <= k < |visited| && k != r ensures visited[k] != m {
      NoneIsVisitedTwice(w, visited, if k < r then k else r, if k < r then r else k);
    }
  }

  lemma NoneIsVisitedTwice<Item>(w: World<Item>, visited: seq<MemberId>, j: nat, k: nat)
    requires VisitsFrom(w, visited) && j < k < |visited|
    ensures visited[j] != visited[k]
  {
    assert FirstNew(w.members(k), visited[..k]) == Some(visited[k]);
    assert visited[..k][j] == visited[j];
  }

  /** If the list never changes, its members are visited in its own order. */
  lemma QuietListIsVisitedInOrder<Item>(w: World<Item>, members: seq<MemberId>, visited: seq<MemberId>)
    requires forall j, k | 0 <= j < k < |members| :: members[j] != members[k]
    requires forall r: nat :: w.members(r) == members
    requires VisitsFrom(w, visited) && FirstNew(members, visited).None?
    ensures visited == members
  {
    PrefixVisited(w, members, visited, |visited|);
    assert visited[..|visited|] == visited;
    if |visited| < |members| {
      NextIsNew(members, |visited|);
    }
  }

  lemma {:induction false} PrefixVisited<Item>(w: World<Item>, members: seq<MemberId>, visited: seq<MemberId>, n: nat)
    requires forall j, k | 0 <= j < k < |members| :: members[j] != members[k]
    requires forall r: nat :: w.members(r) == members
    requires VisitsFrom(w, visited) && n <= |visited|
    ensures n <= |members| && visited[..n] == members[..n]
  {
    if n > 0 {
      PrefixVisited(w, members, visited, n - 1);
      assert FirstNew(w.members(n - 1), visited[..n - 1]) == Some(visited[n - 1]);
      if n - 1 < |members| {
        NextIsNew(members, n - 1);
      }
    }
  }

  lemma {:induction false} NextIsNew(members: seq<MemberId>, n: nat)
    requires n < |members| && forall j, k | 0 <= j < k < |members| :: members[j] != members[k]
    ensures FirstNew(members, members[..n]) == Some(members[n])
  {
    NewAfterKnown(members, members[..n], 0, n);
  }

  lemma {:induction false} NewAfterKnown(members: seq<MemberId>, known: seq<MemberId>, i: nat, n: nat)
    requires i <= n < |members| && members[n] !in known
    requires forall k | i <= k < n :: members[k] in known
    ensures FirstNew(members[i..], known) == Some(members[n])
    decreases n - i
  {
    assert members[i..][1..] == members[i + 1..];
    if i < n {
      NewAfterKnown(members, known, i + 1, n);
    }
  }
}
