/** Role names arrive as lists; the rules are about sets. These are the list
    loops and the set facts they decide. */
module RoleLists {

  ghost predicate NoRepeats<T(!new)>(s: seq<T>) {
    forall i, j :: 0 <= i < j < |s| ==> s[i] != s[j]
  }

  function Elements<T>(s: seq<T>): set<T> {
    set x | x in s
  }

  /** Each role at its first occurrence. */
  function Deduplicated(roles: seq<string>): seq<string> {
    if roles == [] then []
    else
      var earlier := Deduplicated(roles[..|roles| - 1]);
      if roles[|roles| - 1] in earlier then earlier else earlier + [roles[|roles| - 1]]
  }

  /** Where a role first occurs; the length of the list when it does not. */
  function FirstIndex(roles: seq<string>, role: string): (k: nat)
    ensures k <= |roles|
    ensures k < |roles| ==> roles[k] == role
    ensures k < |roles| <==> role in roles
    ensures forall i :: 0 <= i < k ==> roles[i] != role
  {
    if roles == [] then 0 else if roles[0] == role then 0 else 1 + FirstIndex(roles[1..], role)
  }

  lemma FirstIndexOfPrefix(roles: seq<string>, last: string, role: string)
    requires role in roles
    ensures FirstIndex(roles + [last], role) == FirstIndex(roles, role)
  {
    var k, k' := FirstIndex(roles, role), FirstIndex(roles + [last], role);
    assert (roles + [last])[k] == role;
    if k' < k {
      assert (roles + [last])[k'] == roles[k'];
    }
  }

  lemma {:induction false} DeduplicatedMembers(roles: seq<string>, role: string)
    ensures role in Deduplicated(roles) <==> role in roles
  {
    if roles != [] {
      var n := |roles| - 1;
      DeduplicatedMembers(roles[..n], role);
      assert roles == roles[..n] + [roles[n]];
    }
  }

  lemma {:induction false} DeduplicatedOrder(roles: seq<string>, i: nat, j: nat)
    requires i < j < |Deduplicated(roles)|
    ensures FirstIndex(roles, Deduplicated(roles)[i]) < FirstIndex(roles, Deduplicated(roles)[j])
  {
    var n := |roles| - 1;
    var init, last, kept := roles[..n], roles[n], Deduplicated(roles[..n]);
    assert roles == init + [last];
    DeduplicatedMembers(init, kept[i]);
    FirstIndexOfPrefix(init, last, kept[i]);
    if j < |kept| {
      DeduplicatedOrder(init, i, j);
      DeduplicatedMembers(init, kept[j]);
      FirstIndexOfPrefix(init, last, kept[j]);
    } else {
      DeduplicatedMembers(init, last);
      assert forall k :: 0 <= k < n ==> roles[k] == init[k] != last;
    }
  }

  /** Deduplication keeps exactly the set, without repeats, in first-occurrence order. */
  lemma DeduplicatedIsTheSetInOrder(roles: seq<string>)
    ensures Elements(Deduplicated(roles)) == Elements(roles)
    ensures forall i, j :: 0 <= i < j < |Deduplicated(roles)| ==>
      FirstIndex(roles, Deduplicated(roles)[i]) < FirstIndex(roles, Deduplicated(roles)[j])
    ensures NoRepeats(Deduplicated(roles))
  {
    forall x ensures x in Deduplicated(roles) <==> x in roles {
      DeduplicatedMembers(roles, x);
    }
    forall i, j | 0 <= i < j < |Deduplicated(roles)|
      ensures FirstIndex(roles, Deduplicated(roles)[i]) < FirstIndex(roles, Deduplicated(roles)[j])
    {
      DeduplicatedOrder(roles, i, j);
    }
  }

  lemma {:induction false} NoRepeatsSize<T(!new)>(s: seq<T>)
    ensures |Elements(s)| <= |s|
    ensures |Elements(s)| == |s| <==> NoRepeats(s)
  {
    if s != [] {
      var n := |s| - 1;
      NoRepeatsSize(s[..n]);
      if s[n] in s[..n] {
        assert Elements(s) == Elements(s[..n]);
      } else {
        assert Elements(s) == Elements(s[..n]) + {s[n]};
      }
    }
  }

  lemma {:induction false} EqualSizeSubset<T>(small: set<T>, large: set<T>)
    requires small <= large
    ensures |small| <= |large|
    ensures |small| == |large| ==> small == large
  {
    if small != {} {
      var x :| x in small;
      EqualSizeSubset(small - {x}, large - {x});
    }
  }

  /** Equally long, and nothing on the left that is not on the right. */
  predicate Compares(left: seq<string>, right: seq<string>) {
    |left| == |right| && forall x :: x in left ==> x in right
  }

  /** The comparison of two role lists decides equality of the sets exactly
      when neither list repeats a role (pigeonhole). */
  lemma SameRolesDecidesSetEquality(left: seq<string>, right: seq<string>)
    requires NoRepeats(left)
    ensures Compares(left, right) <==> Elements(left) == Elements(right) && NoRepeats(right)
  {
    NoRepeatsSize(left);
    NoRepeatsSize(right);
    if Compares(left, right) {
      EqualSizeSubset(Elements(left), Elements(right));
    }
    if Elements(left) == Elements(right) && NoRepeats(right) {
      forall x | x in left ensures x in right {
        assert x in Elements(right);
      }
    }
  }

  /** What the comparison accepts, whatever the lists: the left set within the right, at one length. */
  lemma ComparesIsInclusion(left: seq<string>, right: seq<string>)
    ensures Compares(left, right) <==> |left| == |right| && Elements(left) <= Elements(right)
  {
    if Elements(left) <= Elements(right) {
      forall x | x in left ensures x in right {
        assert x in Elements(left);
      }
    }
  }

  ghost predicate NeverMisjudges(left: seq<string>) {
    forall right :: Compares(left, right) ==> Elements(left) == Elements(right)
  }

  /** A list of a set's elements and a longer one with a stranger as often as needed. */
  lemma Stretched(left: seq<string>, n: nat, stranger: string) returns (right: seq<string>)
    requires |Elements(left)| <= n
    ensures |right| == n && Elements(left) <= Elements(right)
    ensures |Elements(left)| < n ==> stranger in Elements(right)
  {
    DeduplicatedIsTheSetInOrder(left);
    var distinct := Deduplicated(left);
    NoRepeatsSize(distinct);
    right := distinct + seq(n - |distinct|, _ => stranger);
    forall x | x in Elements(left) ensures x in Elements(right) {
      var i :| 0 <= i < |distinct| && distinct[i] == x;
      assert right[i] == x;
    }
    if |distinct| < n {
      assert right[|distinct|] == stranger;
    }
  }

  function TotalLength(s: seq<string>): nat {
    if s == [] then 0 else |s[0]| + TotalLength(s[1..])
  }

  lemma {:induction false} MembersAreShort(s: seq<string>, x: string)
    requires x in s
    ensures |x| <= TotalLength(s)
  {
    if x != s[0] {
      MembersAreShort(s[1..], x);
    }
  }

  /** The comparison never calls different sets equal exactly when its left list
      repeats no role; a role may be any text, so a stranger to the list exists. */
  lemma NeverMisjudgesIffNoRepeats(left: seq<string>)
    ensures NeverMisjudges(left) <==> NoRepeats(left)
  {
    NoRepeatsSize(left);
    if NoRepeats(left) {
      forall right | Compares(left, right) ensures Elements(left) == Elements(right) {
        SameRolesDecidesSetEquality(left, right);
      }
    } else {
      var stranger := seq(TotalLength(left) + 1, _ => 'x');
      if stranger in left {
        MembersAreShort(left, stranger);
      }
      var right := Stretched(left, |left|, stranger);
      ComparesIsInclusion(left, right);
      assert Elements(left) != Elements(right);
    }
  }

  /** Comparing two lengths decides that every requested role exists. */
  lemma LengthsDecideExistence(requested: seq<string>, found: seq<string>, catalogue: set<string>)
    requires NoRepeats(requested) && NoRepeats(found)
    requires Elements(found) == Elements(requested) * catalogue
    ensures |found| == |requested| <==> Elements(requested) <= catalogue
  {
    NoRepeatsSize(requested);
    NoRepeatsSize(found);
    EqualSizeSubset(Elements(found), Elements(requested));
    if Elements(requested) <= catalogue {
      assert Elements(found) == Elements(requested);
    }
  }

  // -------------------------------------------------------------- the loops

  method HasRole(roles: seq<string>, role: string) returns (found: bool)
    ensures found == (role in roles)
  {
    for i := 0 to |roles|
      invariant role !in roles[..i]
    {
      if roles[i] == role {
        return true;
      }
    }
    return false;
  }

  method Deduplicate(roles: seq<string>) returns (result: seq<string>)
    ensures result == Deduplicated(roles)
  {
    result := [];
    for i := 0 to |roles|
      invariant result == Deduplicated(roles[..i])
    {
      var present := HasRole(result, roles[i]);
      if !present {
        result := result + [roles[i]];
      }
      assert roles[..i + 1][..i] == roles[..i];
    }
    assert roles[..|roles|] == roles;
  }

  method SameRoles(left: seq<string>, right: seq<string>) returns (same: bool)
    ensures same == Compares(left, right)
  {
    if |left| != |right| {
      return false;
    }
    for i := 0 to |left|
      invariant forall x :: x in left[..i] ==> x in right
    {
      var present := HasRole(right, left[i]);
      if !present {
        assert left[i] in left;
        return false;
      }
    }
    assert left[..|left|] == left;
    return true;
  }

  /** employee.validate: "user" first, then every other role at its first occurrence. */
  method FinalRoles(requested: seq<string>) returns (final: seq<string>)
    ensures final == Deduplicated(["user"] + requested)
  {
    final := ["user"];
    assert ["user"] + requested[..0] == ["user"];
    assert Deduplicated(["user"]) == ["user"];
    for i := 0 to |requested|
      invariant "user" in final
      invariant final == Deduplicated(["user"] + requested[..i])
    {
      var present := HasRole(final, requested[i]);
      if requested[i] != "user" && !present {
        final := final + [requested[i]];
      }
      assert (["user"] + requested[..i + 1])[..i + 1] == ["user"] + requested[..i];
    }
    assert requested[..|requested|] == requested;
  }
}
