/** Group membership in memory mode, the authoritative copy, and its sorted views. */
module GroupMembers {
  import opened Sessions

  predicate Ascending(s: seq<nat>) {
    forall i, j :: 0 <= i < j < |s| ==> s[i] < s[j]
  }

  function Elements(s: seq<nat>): set<nat> {
    set x | x in s
  }

  /** The one ascending list of a set. */
  ghost predicate Lists(s: seq<nat>, elements: set<nat>) {
    Ascending(s) && Elements(s) == elements
  }

  lemma {:induction false} ListIsUnique(s: seq<nat>, t: seq<nat>)
    requires Ascending(s) && Ascending(t) && Elements(s) == Elements(t)
    ensures s == t
  {
    if s == [] || t == [] {
      NoElements(s);
      NoElements(t);
    } else {
      var last, end := |s| - 1, |t| - 1;
      assert s[last] in Elements(s);
      assert s[last] in t && t[end] in Elements(t);
      assert s[last] == t[end];
      DropGreatest(s);
      DropGreatest(t);
      ListIsUnique(s[..last], t[..end]);
      assert s == s[..last] + [s[last]] && t == t[..end] + [t[end]];
    }
  }

  lemma NoElements(s: seq<nat>)
    ensures Elements(s) == {} <==> s == []
  {
    if s != [] {
      assert s[0] in Elements(s);
    }
  }

  lemma DropGreatest(s: seq<nat>)
    requires s != [] && Ascending(s)
    ensures Ascending(s[..|s| - 1]) && Elements(s[..|s| - 1]) == Elements(s) - {s[|s| - 1]}
  {
    var front := s[..|s| - 1];
    forall x | x in Elements(s) - {s[|s| - 1]} ensures x in Elements(front) {
      var i :| 0 <= i < |s| && s[i] == x;
      assert front[i] == x;
    }
    assert forall x :: x in front ==> x in s;
  }

  /** The list itself. */
  ghost function ListOf(elements: set<nat>): (s: seq<nat>)
    ensures Lists(s, elements)
  {
    if elements == {} then NoElements([]); []
    else
      HasGreatest(elements);
      var greatest :| greatest in elements && forall x :: x in elements ==> x <= greatest;
      var front := ListOf(elements - {greatest});
      assert forall x :: x in front <==> x in Elements(front);
      assert forall x :: x in front + [greatest] <==> x in front || x == greatest;
      Extends(front, greatest);
      front + [greatest]
  }

  lemma {:induction false} HasGreatest(elements: set<nat>)
    requires elements != {}
    ensures exists greatest :: greatest in elements && forall x :: x in elements ==> x <= greatest
  {
    var y :| y in elements;
    var rest := elements - {y};
    if rest == {} {
      assert elements == {y};
    } else {
      HasGreatest(rest);
      var greatest :| greatest in rest && forall x :: x in rest ==> x <= greatest;
      OneMore(elements, y, greatest);
    }
  }

  lemma OneMore(elements: set<nat>, y: nat, greatest: nat)
    requires y in elements && greatest in elements && forall x :: x in elements - {y} ==> x <= greatest
    ensures exists max :: max in elements && forall x :: x in elements ==> x <= max
  {
    var max := if y > greatest then y else greatest;
    assert max in elements && forall x :: x in elements ==> x <= max by {
      forall x | x in elements ensures x <= max {
        if x != y { assert x in elements - {y}; }
      }
    }
  }

  // ------------------------------------------------------------ the views

  function MembersOf(groups: Groups, groupId: nat): set<nat> {
    if groupId in groups then groups[groupId] else {}
  }

  function GroupsOf(groups: Groups, userId: nat): set<nat> {
    set g | g in groups && userId in groups[g]
  }

  /** Whatever lists the loaders return, the three views of membership agree. */
  lemma ViewsAgree(groups: Groups, groupId: nat, userId: nat, members: seq<nat>, groupIds: seq<nat>)
    requires Lists(members, MembersOf(groups, groupId)) && Lists(groupIds, GroupsOf(groups, userId))
    ensures IsMember(groups, groupId, userId) <==> userId in members
    ensures IsMember(groups, groupId, userId) <==> groupId in groupIds
  {
    assert userId in members <==> userId in Elements(members);
    assert groupId in groupIds <==> groupId in Elements(groupIds);
  }

  // ------------------------------------------------------------ sorting

  function Insert(s: seq<nat>, x: nat): seq<nat> {
    if s == [] || s[|s| - 1] <= x then s + [x] else Insert(s[..|s| - 1], x) + [s[|s| - 1]]
  }

  lemma {:induction false} InsertAdds(s: seq<nat>, x: nat)
    ensures forall y :: y in Insert(s, x) <==> y in s || y == x
  {
    if s != [] && s[|s| - 1] > x {
      InsertAdds(s[..|s| - 1], x);
      assert s == s[..|s| - 1] + [s[|s| - 1]];
    }
  }

  lemma Extends(s: seq<nat>, last: nat)
    requires Ascending(s) && forall y :: y in s ==> y < last
    ensures Ascending(s + [last])
  {
    forall i | 0 <= i < |s| ensures s[i] < last {
      assert s[i] in s;
    }
  }

  lemma {:induction false} InsertAscends(s: seq<nat>, x: nat)
    requires Ascending(s) && x !in s
    ensures Ascending(Insert(s, x))
  {
    if s == [] || s[|s| - 1] <= x {
      Extends(s, x);
    } else {
      InsertAscends(s[..|s| - 1], x);
      InsertAdds(s[..|s| - 1], x);
      Extends(Insert(s[..|s| - 1], x), s[|s| - 1]);
    }
  }

  lemma InsertKeeps(s: seq<nat>, x: nat)
    requires Ascending(s) && x !in s
    ensures Lists(Insert(s, x), Elements(s) + {x})
  {
    InsertAscends(s, x);
    InsertAdds(s, x);
  }

  /** `assign` from a hash set, in whatever order it is iterated, then `sort`. */
  method SortedList(elements: set<nat>) returns (s: seq<nat>)
    ensures Lists(s, elements)
  {
    s := [];
    var rest := elements;
    while rest != {}
      invariant rest <= elements && Lists(s, elements - rest)
    {
      var x :| x in rest;
      assert x in s <==> x in Elements(s);
      InsertKeeps(s, x);
      s := Insert(s, x);
      rest := rest - {x};
      assert elements - rest == (elements - (rest + {x})) + {x};
    }
    assert elements - rest == elements;
  }

  datatype JoinResult = JoinResult(success: bool, alreadyMember: bool, reason: string)

  class GroupMemberStore {
    var memoryMembers: Groups

    constructor ()
      ensures memoryMembers == map[]
    {
      memoryMembers := map[];
    }

    method JoinGroup(groupId: nat, userId: nat) returns (result: JoinResult)
      modifies this
      ensures memoryMembers == Joined(old(memoryMembers), groupId, userId)
      ensures result == JoinResult(true, IsMember(old(memoryMembers), groupId, userId), "")
    {
      if groupId !in memoryMembers {
        memoryMembers := memoryMembers[groupId := {}];
      }
      var inserted := userId !in memoryMembers[groupId];
      memoryMembers := memoryMembers[groupId := memoryMembers[groupId] + {userId}];
      result := JoinResult(true, !inserted, "");
    }

    method LeaveGroup(groupId: nat, userId: nat) returns (result: JoinResult)
      modifies this
      ensures if IsMember(old(memoryMembers), groupId, userId) then
                result == JoinResult(true, false, "") && memoryMembers == Left(old(memoryMembers), groupId, userId)
              else
                result == JoinResult(false, false, "not a member of this group") && memoryMembers == old(memoryMembers)
    {
      if groupId !in memoryMembers || userId !in memoryMembers[groupId] {
        return JoinResult(false, false, "not a member of this group");
      }
      memoryMembers := memoryMembers[groupId := memoryMembers[groupId] - {userId}];
      if memoryMembers[groupId] == {} {
        memoryMembers := memoryMembers - {groupId};
      }
      return JoinResult(true, false, "");
    }

    method IsGroupMember(groupId: nat, userId: nat) returns (member: bool)
      ensures member == IsMember(memoryMembers, groupId, userId)
    {
      member := groupId in memoryMembers && userId in memoryMembers[groupId];
    }

    method LoadGroupMembers(groupId: nat) returns (members: seq<nat>)
      ensures Lists(members, MembersOf(memoryMembers, groupId))
    {
      if groupId !in memoryMembers {
        assert Elements([]) == {};
        return [];
      }
      members := SortedList(memoryMembers[groupId]);
    }

    method LoadUserGroups(userId: nat) returns (groups: seq<nat>)
      ensures Lists(groups, GroupsOf(memoryMembers, userId))
    {
      var found, rest := {}, memoryMembers.Keys;
      while rest != {}
        invariant rest <= memoryMembers.Keys
        invariant found == set g | g in memoryMembers.Keys - rest && userId in memoryMembers[g]
      {
        var g :| g in rest;
        if userId in memoryMembers[g] {
          found := found + {g};
        }
        rest := rest - {g};
      }
      assert memoryMembers.Keys - rest == memoryMembers.Keys;
      groups := SortedList(found);
    }
  }
}
