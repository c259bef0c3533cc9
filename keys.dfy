/**
 * The order in which the quiz enumerates the question ids of an answer set.
 * Object keys that are array indices (the integers 0 to 2^32 - 2) come out
 * in ascending numeric order; the model lists every integer key that way,
 * which agrees with the object for the ids 1-5 the quiz records.
 */
module Keys {

  /** The smallest element of a non-empty set of question ids. */
  ghost function MinOf(s: set<int>): (m: int)
    requires s != {}
    ensures m in s && forall x :: x in s ==> m <= x
  {
    HasMinimum(s);
    var m :| IsMinimum(m, s);
    m
  }

  lemma {:induction false} HasMinimum(s: set<int>)
    requires s != {}
    ensures exists m :: IsMinimum(m, s)
    decreases s
  {
    NonEmpty(s);
    var y :| y in s;
    if s == {y} {
      assert IsMinimum(y, s);
    } else {
      HasMinimum(s - {y});
      var m :| IsMinimum(m, s - {y});
      var least := if y < m then y else m;
      forall x | x in s ensures least <= x {
        if x != y {
          assert x in s - {y};
        }
      }
      assert IsMinimum(least, s);
    }
  }

  /**
   * A non-empty set has an element. The empty case split is the whole proof:
   * it hands the solver the set-extensionality step it does not take on its
   * own when contradictory-assumption checking is on.
   */
  lemma NonEmpty(s: set<int>)
    requires s != {}
    ensures exists y :: y in s
  {
    if forall y :: y !in s {
    }
  }

  /** `m` is the least element of `s`. */
  ghost predicate IsMinimum(m: int, s: set<int>)
  {
    m in s && forall x :: x in s ==> m <= x
  }

  /** The keys of an answer set in the order they are enumerated: ascending. */
  ghost function SortedKeys(s: set<int>): (keys: seq<int>)
    ensures forall k {:trigger k in keys} :: k in keys <==> k in s
    ensures forall i, j :: 0 <= i < j < |keys| ==> keys[i] < keys[j]
    decreases s
  {
    if s == {} then []
    else
      var m := MinOf(s);
      var rest := SortedKeys(s - {m});
      assert forall j :: 0 <= j < |rest| ==> m < rest[j] by {
        forall j | 0 <= j < |rest| ensures m < rest[j] {
          assert rest[j] in rest;
        }
      }
      [m] + rest
  }

  /** The enumeration starts with the least element and goes on with the others. */
  lemma SortedKeysFirst(s: set<int>, m: int)
    requires IsMinimum(m, s)
    ensures SortedKeys(s) == [m] + SortedKeys(s - {m})
  {
    assert MinOf(s) == m;
  }

  /** `keys` lists exactly the elements of `s`, strictly ascending. */
  ghost predicate Enumerates(keys: seq<int>, s: set<int>)
  {
    && (forall k {:trigger k in keys} :: k in keys <==> k in s)
    && (forall i, j :: 0 <= i < j < |keys| ==> keys[i] < keys[j])
  }

  /** The tail of an ascending enumeration enumerates the set without its least element. */
  lemma EnumeratesTail(keys: seq<int>, s: set<int>)
    requires Enumerates(keys, s) && keys != []
    ensures s != {} && keys[0] == MinOf(s)
    ensures Enumerates(keys[1..], s - {keys[0]})
  {
    assert keys[0] in keys;
    var m := MinOf(s);
    assert m in keys;
    var tail := keys[1..];
    forall k {:trigger k in tail} ensures k in tail <==> k in s - {keys[0]} {
      if k in tail {
        var i :| 0 <= i < |tail| && tail[i] == k;
        assert keys[i + 1] == k && keys[0] < keys[i + 1];
        assert keys[i + 1] in keys;
      }
      if k in s - {keys[0]} {
        assert k in keys;
        var i :| 0 <= i < |keys| && keys[i] == k;
        assert tail[i - 1] == k;
      }
    }
  }

  /** A non-empty enumeration starts with an element of the set. */
  lemma EnumeratesHead(keys: seq<int>, s: set<int>)
    requires Enumerates(keys, s)
    ensures keys != [] ==> keys[0] in s
  {
    if keys != [] {
      assert keys[0] in keys;
    }
  }

  /** A strictly ascending sequence is the ascending enumeration of its elements. */
  lemma {:induction false} SortedKeysUnique(s: set<int>, keys: seq<int>)
    requires Enumerates(keys, s)
    ensures SortedKeys(s) == keys
    decreases s
  {
    if s != {} {
      assert keys != [] by {
        var m := MinOf(s);
        assert m in keys;
      }
      EnumeratesTail(keys, s);
      SortedKeysUnique(s - {keys[0]}, keys[1..]);
      assert SortedKeys(s) == [keys[0]] + SortedKeys(s - {keys[0]});
      assert keys == [keys[0]] + keys[1..];
    } else {
      EnumeratesHead(keys, s);
    }
  }
}
