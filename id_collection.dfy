/** The two record stores of the object library the tools are built on, as far as the tools
  * rely on them. A `CollectionWithId<T>` is a sequence of records whose identifiers, read
  * through `key`, are pairwise distinct; an `Idx<T>` is a position in one such sequence and
  * is only meaningful for the sequence it was taken from. A plain `Collection<T>` is a
  * sequence. `push`, `try_merge`, `merge`, `get_idx` and `retain` are given here the meaning
  * the library documents for them. */
module IdCollection {
  import opened Wrappers

  type Idx = nat

  function IdSet<T>(s: seq<T>, key: T -> string): set<string>
  {
    set i | 0 <= i < |s| :: key(s[i])
  }

  predicate UniqueIds<T>(s: seq<T>, key: T -> string)
  {
    forall i, j :: 0 <= i < j < |s| ==> key(s[i]) != key(s[j])
  }

  function DuplicateMessage(id: string): string
  {
    "identifier " + id + " already exists"
  }

  lemma IdSetAppend<T>(s: seq<T>, t: seq<T>, key: T -> string)
    ensures IdSet(s + t, key) == IdSet(s, key) + IdSet(t, key)
  {
    var st := s + t;
    forall id | id in IdSet(st, key) ensures id in IdSet(s, key) + IdSet(t, key) {
      var i :| 0 <= i < |st| && key(st[i]) == id;
      if i < |s| { assert st[i] == s[i]; } else { assert st[i] == t[i - |s|]; }
    }
    forall id | id in IdSet(s, key) + IdSet(t, key) ensures id in IdSet(st, key) {
      if id in IdSet(s, key) {
        var i :| 0 <= i < |s| && key(s[i]) == id;
        assert st[i] == s[i];
      } else {
        var i :| 0 <= i < |t| && key(t[i]) == id;
        assert st[i + |s|] == t[i];
      }
    }
  }

  lemma UniqueIdsCons<T>(x: T, s: seq<T>, key: T -> string)
    ensures UniqueIds([x] + s, key) <==> UniqueIds(s, key) && key(x) !in IdSet(s, key)
  {
    var t := [x] + s;
    if UniqueIds(t, key) {
      forall i | 0 <= i < |s| ensures key(s[i]) != key(x) { assert t[i + 1] == s[i] && t[0] == x; }
      forall i, j | 0 <= i < j < |s| ensures key(s[i]) != key(s[j]) { assert t[i + 1] == s[i] && t[j + 1] == s[j]; }
    }
    if UniqueIds(s, key) && key(x) !in IdSet(s, key) {
      forall i, j | 0 <= i < j < |t| ensures key(t[i]) != key(t[j]) {
        assert t[j] == s[j - 1];
        if i > 0 { assert t[i] == s[i - 1]; }
      }
    }
  }

  /** `get_idx`: the position of the record carrying `id`, if any. */
  function GetIdx<T>(s: seq<T>, key: T -> string, id: string): (r: Option<Idx>)
    ensures r.Some? ==> r.value < |s| && key(s[r.value]) == id
    ensures r.Some? ==> forall j :: 0 <= j < r.value ==> key(s[j]) != id
    ensures r.None? <==> id !in IdSet(s, key)
  {
    if s == [] then None
    else if key(s[0]) == id then Some(0)
    else
      match GetIdx(s[1..], key, id)
      case None =>
        assert IdSet(s, key) == {key(s[0])} + IdSet(s[1..], key) by {
          assert s == [s[0]] + s[1..];
          IdSetAppend([s[0]], s[1..], key);
        }
        None
      case Some(i) => Some(i + 1)
  }

  /** In a collection with distinct ids, `get_idx` finds the one record carrying the id. */
  lemma GetIdxOfMember<T>(s: seq<T>, key: T -> string, i: nat)
    requires UniqueIds(s, key) && i < |s|
    ensures GetIdx(s, key, key(s[i])) == Some(i)
  {
    assert s[i] in s;
  }

  /** `push`: appends, or refuses a record whose id is already present. */
  function Push<T>(s: seq<T>, key: T -> string, x: T): (r: Result<seq<T>, string>)
    ensures r.Ok? <==> key(x) !in IdSet(s, key)
    ensures r.Ok? ==> r.value == s + [x]
    ensures r.Err? ==> r.error == DuplicateMessage(key(x))
  {
    if key(x) in IdSet(s, key) then Err(DuplicateMessage(key(x))) else Ok(s + [x])
  }

  /** `try_merge`: pushes every record of `other` in order and stops at the first refusal. */
  function TryMerge<T>(s: seq<T>, key: T -> string, other: seq<T>): Result<seq<T>, string>
    decreases |other|
  {
    if other == [] then Ok(s)
    else
      match Push(s, key, other[0])
      case Err(e) => Err(e)
      case Ok(s') => TryMerge(s', key, other[1..])
  }

  lemma UniqueIdsSnoc<T>(s: seq<T>, key: T -> string, x: T)
    ensures UniqueIds(s + [x], key) <==> UniqueIds(s, key) && key(x) !in IdSet(s, key)
  {
    var t := s + [x];
    if UniqueIds(t, key) {
      forall i | 0 <= i < |s| ensures key(s[i]) != key(x) { assert t[i] == s[i] && t[|s|] == x; }
      forall i, j | 0 <= i < j < |s| ensures key(s[i]) != key(s[j]) { assert t[i] == s[i] && t[j] == s[j]; }
    }
    if UniqueIds(s, key) && key(x) !in IdSet(s, key) {
      forall i, j | 0 <= i < j < |t| ensures key(t[i]) != key(t[j]) {
        assert t[i] == s[i];
        if j < |s| { assert t[j] == s[j]; }
      }
    }
  }

  /** Merging succeeds exactly when the ids of both sides stay distinct, and then appends
    * `other` unchanged; a failure names an id of `other` that is already taken. */
  lemma {:induction false} TryMergeSpec<T>(s: seq<T>, key: T -> string, other: seq<T>)
    requires UniqueIds(s, key)
    ensures TryMerge(s, key, other).Ok? <==> UniqueIds(s + other, key)
    ensures TryMerge(s, key, other).Ok? ==> TryMerge(s, key, other).value == s + other
    ensures TryMerge(s, key, other).Err? ==>
      exists j :: 0 <= j < |other| && TryMerge(s, key, other).error == DuplicateMessage(key(other[j]))
        && key(other[j]) in IdSet(s + other[..j], key)
    decreases |other|
  {
    if other != [] {
      var x := other[0];
      UniqueIdsSnoc(s, key, x);
      assert s + other == (s + [x]) + other[1..];
      if key(x) in IdSet(s, key) {
        assert other[..0] == [] && s + other[..0] == s;
        var i :| 0 <= i < |s| && key(s[i]) == key(x);
        assert (s + other)[i] == s[i] && (s + other)[|s|] == x;
      } else {
        TryMergeSpec(s + [x], key, other[1..]);
        if TryMerge(s + [x], key, other[1..]).Err? {
          var j :| 0 <= j < |other[1..]| && TryMerge(s + [x], key, other[1..]).error == DuplicateMessage(key(other[1..][j]))
            && key(other[1..][j]) in IdSet(s + [x] + other[1..][..j], key);
          assert other[1..][j] == other[j + 1];
          assert other[..j + 1] == [x] + other[1..][..j];
          calc {
            s + [x] + other[1..][..j];
            s + ([x] + other[1..][..j]);
            s + other[..j + 1];
          }
        }
      }
    }
  }

  /** When the incoming records have distinct ids, a failed merge names the first of them
    * that is already in the collection. */
  lemma {:induction false} TryMergeFirstClash<T>(s: seq<T>, key: T -> string, other: seq<T>)
    requires UniqueIds(s, key) && UniqueIds(other, key) && TryMerge(s, key, other).Err?
    ensures exists j ::
      && 0 <= j < |other| && TryMerge(s, key, other).error == DuplicateMessage(key(other[j]))
      && key(other[j]) in IdSet(s, key) && forall k :: 0 <= k < j ==> key(other[k]) !in IdSet(s, key)
    decreases |other|
  {
    var x := other[0];
    if key(x) !in IdSet(s, key) {
      UniqueIdsSnoc(s, key, x);
      UniqueIdsCons(x, other[1..], key);
      assert [x] + other[1..] == other;
      TryMergeFirstClash(s + [x], key, other[1..]);
      IdSetAppend(s, [x], key);
      var j :| 0 <= j < |other[1..]| && TryMerge(s + [x], key, other[1..]).error == DuplicateMessage(key(other[1..][j]))
        && key(other[1..][j]) in IdSet(s + [x], key)
        && forall k :: 0 <= k < j ==> key(other[1..][k]) !in IdSet(s + [x], key);
      assert other[1..][j] == other[j + 1];
      assert key(other[j + 1]) != key(x);
      forall k | 0 < k < j + 1 ensures key(other[k]) !in IdSet(s, key) {
        assert other[k] == other[1..][k - 1];
      }
    }
  }

  /** Pushing one more record after a merge that succeeded is pushing it onto the result. */
  lemma {:induction false} TryMergeSnoc<T>(s: seq<T>, key: T -> string, other: seq<T>, x: T)
    requires TryMerge(s, key, other).Ok?
    ensures TryMerge(s, key, other + [x]) == Push(TryMerge(s, key, other).value, key, x)
    decreases |other|
  {
    if other == [] {
      assert [x][1..] == [];
    } else {
      assert (other + [x])[1..] == other[1..] + [x];
      TryMergeSnoc(Push(s, key, other[0]).value, key, other[1..], x);
    }
  }

  /** A merge that failed stays failed, with the same error, whatever follows. */
  lemma {:induction false} TryMergeStopped<T>(s: seq<T>, key: T -> string, other: seq<T>, rest: seq<T>)
    requires TryMerge(s, key, other).Err?
    ensures TryMerge(s, key, other + rest) == TryMerge(s, key, other)
    decreases |other|
  {
    assert (other + rest)[0] == other[0];
    if Push(s, key, other[0]).Ok? {
      assert (other + rest)[1..] == other[1..] + rest;
      TryMergeStopped(Push(s, key, other[0]).value, key, other[1..], rest);
    }
  }

  /** Records whose ids are read the same, position by position, are found at the same
    * positions. */
  lemma GetIdxSameKeys<T>(s: seq<T>, t: seq<T>, key: T -> string, id: string)
    requires |s| == |t| && forall i :: 0 <= i < |s| ==> key(s[i]) == key(t[i])
    ensures IdSet(s, key) == IdSet(t, key)
    ensures GetIdx(s, key, id) == GetIdx(t, key, id)
  {
    assert forall x :: x in IdSet(s, key) ==> x in IdSet(t, key);
    assert forall x :: x in IdSet(t, key) ==> x in IdSet(s, key);
  }

  /** Appending a record does not move the ones already found. */
  lemma {:induction false} GetIdxSnoc<T>(s: seq<T>, key: T -> string, x: T, id: string)
    ensures GetIdx(s + [x], key, id) ==
      if id in IdSet(s, key) then GetIdx(s, key, id) else if key(x) == id then Some(|s|) else None
    decreases |s|
  {
    if s == [] {
      assert [x][1..] == [];
    } else {
      assert (s + [x])[0] == s[0];
      assert (s + [x])[1..] == s[1..] + [x];
      GetIdxSnoc(s[1..], key, x, id);
      assert s == [s[0]] + s[1..];
      IdSetAppend([s[0]], s[1..], key);
      assert IdSet([s[0]], key) == {key(s[0])};
    }
  }

  lemma UniqueIdsPrefix<T>(s: seq<T>, key: T -> string, n: nat)
    requires n <= |s| && UniqueIds(s, key)
    ensures UniqueIds(s[..n], key)
  {
  }

  /** Two collections with distinct ids concatenate into one exactly when no id is on both
    * sides. */
  lemma UniqueIdsAppend<T>(s: seq<T>, t: seq<T>, key: T -> string)
    requires UniqueIds(s, key) && UniqueIds(t, key)
    ensures UniqueIds(s + t, key) <==> IdSet(s, key) !! IdSet(t, key)
  {
    var st := s + t;
    if UniqueIds(st, key) {
      forall id | id in IdSet(s, key) ensures id !in IdSet(t, key) {
        var i :| 0 <= i < |s| && key(s[i]) == id;
        forall j | 0 <= j < |t| ensures key(t[j]) != id { assert st[i] == s[i] && st[|s| + j] == t[j]; }
      }
    }
    if IdSet(s, key) !! IdSet(t, key) {
      forall i, j | 0 <= i < j < |st| ensures key(st[i]) != key(st[j]) {
        if j < |s| {
          assert st[i] == s[i] && st[j] == s[j];
        } else if i >= |s| {
          assert st[i] == t[i - |s|] && st[j] == t[j - |s|];
        } else {
          assert st[i] == s[i] && st[j] == t[j - |s|];
          assert key(s[i]) in IdSet(s, key) && key(t[j - |s|]) in IdSet(t, key);
        }
      }
    }
  }

  /** `merge` of a `CollectionWithId`: appends the records of `other` whose id is not taken yet
    * and drops the others. */
  function MergeWithId<T>(s: seq<T>, key: T -> string, other: seq<T>): seq<T>
    decreases |other|
  {
    if other == [] then s
    else if key(other[0]) in IdSet(s, key) then MergeWithId(s, key, other[1..])
    else MergeWithId(s + [other[0]], key, other[1..])
  }

  /** A non-failing merge keeps the accumulator as a prefix, keeps ids distinct, and ends up
    * with exactly the ids of both sides. */
  lemma {:induction false} MergeWithIdSpec<T>(s: seq<T>, key: T -> string, other: seq<T>)
    requires UniqueIds(s, key)
    ensures var r := MergeWithId(s, key, other);
      UniqueIds(r, key) && |s| <= |r| && r[..|s|] == s
      && IdSet(r, key) == IdSet(s, key) + IdSet(other, key)
      && forall x :: x in r ==> x in s || x in other
    decreases |other|
  {
    if other != [] {
      var x := other[0];
      assert other == [x] + other[1..];
      IdSetAppend([x], other[1..], key);
      if key(x) in IdSet(s, key) {
        MergeWithIdSpec(s, key, other[1..]);
      } else {
        UniqueIdsSnoc(s, key, x);
        MergeWithIdSpec(s + [x], key, other[1..]);
        IdSetAppend(s, [x], key);
        var r := MergeWithId(s, key, other);
        assert r[..|s| + 1][..|s|] == r[..|s|];
      }
    }
  }

  /** When no id of `other` is taken, the non-failing merge is a concatenation. */
  lemma {:induction false} MergeWithIdDisjoint<T>(s: seq<T>, key: T -> string, other: seq<T>)
    requires UniqueIds(s + other, key)
    ensures MergeWithId(s, key, other) == s + other
    decreases |other|
  {
    if other != [] {
      var x := other[0];
      assert s + other == (s + [x]) + other[1..];
      UniqueIdsPrefix(s + other, key, |s| + 1);
      assert (s + other)[..|s| + 1] == s + [x];
      UniqueIdsSnoc(s, key, x);
      MergeWithIdDisjoint(s + [x], key, other[1..]);
    }
  }

  /** `retain`: keeps, in order, the records satisfying `keep`. */
  function Retain<T(==)>(s: seq<T>, keep: T -> bool): (r: seq<T>)
    ensures |r| <= |s|
    ensures forall i :: 0 <= i < |r| ==> r[i] in s && keep(r[i])
    ensures forall i :: 0 <= i < |s| && keep(s[i]) ==> s[i] in r
  {
    if s == [] then []
    else if keep(s[0]) then [s[0]] + Retain(s[1..], keep)
    else Retain(s[1..], keep)
  }

  lemma {:induction false} RetainIdSet<T>(s: seq<T>, key: T -> string, keep: T -> bool)
    ensures IdSet(Retain(s, keep), key) <= IdSet(s, key)
  {
    if s != [] {
      RetainIdSet(s[1..], key, keep);
      assert s == [s[0]] + s[1..];
      IdSetAppend([s[0]], s[1..], key);
      if keep(s[0]) { IdSetAppend([s[0]], Retain(s[1..], keep), key); }
    }
  }

  /** Filtering preserves distinct ids. */
  lemma {:induction false} RetainUnique<T>(s: seq<T>, key: T -> string, keep: T -> bool)
    requires UniqueIds(s, key)
    ensures UniqueIds(Retain(s, keep), key)
  {
    if s != [] {
      assert s == [s[0]] + s[1..];
      UniqueIdsCons(s[0], s[1..], key);
      RetainUnique(s[1..], key, keep);
      RetainIdSet(s[1..], key, keep);
      if keep(s[0]) { UniqueIdsCons(s[0], Retain(s[1..], keep), key); }
    }
  }
}
