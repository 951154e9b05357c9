/**
 Duplicate detection of `Task2.findDuplicates`: the users present in both of two
 collections are appended to a list that the class keeps for its whole lifetime,
 and that list is returned.
 */
module Task2 {

  /** A user; two users are the same when all three fields are equal. */
  datatype User = User(username: string, email: string, passwordHash: seq<bv8>)

  /** The users that occur in both collections. */
  function Common(collA: seq<User>, collB: seq<User>): set<User>
  {
    set u | u in collA && u in collB
  }

  /** No user occurs twice in the list. */
  predicate Distinct(xs: seq<User>)
  {
    forall i, j :: 0 <= i < j < |xs| ==> xs[i] != xs[j]
  }

  /** A duplicate-free list of exactly the members of `s` has one position per member. */
  lemma {:induction false} EnumerationSize(xs: seq<User>, s: set<User>)
    requires Distinct(xs)
    requires forall u :: u in xs <==> u in s
    ensures |xs| == |s|
  {
    if xs == [] {
      assert s == {};
    } else {
      var rest := xs[1..];
      forall u | u in rest
        ensures u != xs[0]
      {
        var j :| 0 <= j < |rest| && rest[j] == u;
        assert xs[j + 1] == u;
      }
      assert forall u :: u in rest <==> u in s - {xs[0]};
      EnumerationSize(rest, s - {xs[0]});
    }
  }

  /**
   `userSet.retainAll(collB)`: visits each member of the set and removes it when
   `collB` does not contain it. What remains is the members also in `collB`.
   */
  method RetainAll(userSet: set<User>, collB: seq<User>) returns (kept: set<User>)
    ensures forall u :: u in kept <==> u in userSet && u in collB
  {
    kept := userSet;
    var toVisit := userSet;
    while toVisit != {}
      invariant toVisit <= userSet
      invariant forall u :: u in kept <==> u in userSet && (u in toVisit || u in collB)
      decreases toVisit
    {
      var u :| u in toVisit;
      if u !in collB {
        kept := kept - {u};
      }
      toVisit := toVisit - {u};
    }
  }

  /**
   `list.addAll(userSet)`: appends the members of the set, each once, in the set's
   (unspecified) iteration order. The old list stays as a prefix.
   */
  method AppendAll(list: seq<User>, userSet: set<User>) returns (r: seq<User>)
    ensures |r| == |list| + |userSet|
    ensures r[..|list|] == list
    ensures forall u :: u in r[|list|..] <==> u in userSet
    ensures Distinct(r[|list|..])
  {
    var added: seq<User> := [];
    var rest := userSet;
    while rest != {}
      invariant rest <= userSet
      invariant forall u :: u in added <==> u in userSet && u !in rest
      invariant Distinct(added)
      decreases rest
    {
      var u :| u in rest;
      added := added + [u];
      rest := rest - {u};
    }
    EnumerationSize(added, userSet);
    r := list + added;
    assert r[..|list|] == list && r[|list|..] == added;
  }

  /** The class-level state of `Task2`: the `duplicates` list, never cleared. */
  class Accumulator {
    var duplicates: seq<User>

    constructor ()
      ensures duplicates == []
    {
      duplicates := [];
    }

    /**
     `findDuplicates`: copies `collA` into a set, keeps the users `collB` also
     contains, appends them to `duplicates` and returns the whole list. The
     collections are values and are not changed; earlier results stay in front.
     */
    method FindDuplicates(collA: seq<User>, collB: seq<User>) returns (result: seq<User>)
      modifies this
      ensures result == duplicates
      ensures |duplicates| == |old(duplicates)| + |Common(collA, collB)|
      ensures duplicates[..|old(duplicates)|] == old(duplicates)
      ensures forall u :: u in duplicates[|old(duplicates)|..] <==> u in collA && u in collB
      ensures Distinct(duplicates[|old(duplicates)|..])
    {
      var userSet := set u | u in collA;
      userSet := RetainAll(userSet, collB);
      assert userSet == Common(collA, collB);
      duplicates := AppendAll(duplicates, userSet);
      result := duplicates;
    }
  }
}
