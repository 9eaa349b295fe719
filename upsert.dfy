/** The "combine into the record with the same id, or push" loop that merge-ntfs runs over an
  * incoming id-keyed collection: `CollectionWithId::unify` combines with `unify`, and the
  * physical-mode loop of `try_merge_collections` combines the CO2 values. `combine` is the
  * per-record policy; it never changes a record's id. */
module Upsert {
  import opened Wrappers
  import opened IdCollection

  ghost predicate KeepsKey<T(!new)>(key: T -> string, combine: (T, T) -> T)
  {
    forall a, b :: key(combine(a, b)) == key(a)
  }

  /** One step: into the record with the same id if there is one, otherwise pushed. */
  function UpsertStep<T>(acc: seq<T>, key: T -> string, combine: (T, T) -> T, o: T): seq<T>
  {
    match GetIdx(acc, key, key(o))
    case Some(i) => acc[i := combine(acc[i], o)]
    case None => acc + [o]
  }

  /** The whole loop: a left fold of `UpsertStep` over `other`. */
  function UpsertAll<T>(s: seq<T>, key: T -> string, combine: (T, T) -> T, other: seq<T>): seq<T>
    decreases |other|
  {
    if other == [] then s
    else UpsertStep(UpsertAll(s, key, combine, other[..|other| - 1]), key, combine, other[|other| - 1])
  }

  /** A record of `s` after the loop: combined with the record of `other` carrying its id. */
  function CombinedWithMatch<T>(x: T, key: T -> string, combine: (T, T) -> T, other: seq<T>): T
  {
    match GetIdx(other, key, key(x))
    case Some(j) => combine(x, other[j])
    case None => x
  }

  function CombinedAll<T>(s: seq<T>, key: T -> string, combine: (T, T) -> T, other: seq<T>): (r: seq<T>)
    ensures |r| == |s| && forall i :: 0 <= i < |s| ==> r[i] == CombinedWithMatch(s[i], key, combine, other)
  {
    if s == [] then [] else [CombinedWithMatch(s[0], key, combine, other)] + CombinedAll(s[1..], key, combine, other)
  }

  function IsNew<T>(s: seq<T>, key: T -> string): T -> bool
  {
    (o: T) => key(o) !in IdSet(s, key)
  }

  lemma AppendEmpty<T>(a: seq<T>)
    ensures a + [] == a
  {
  }

  lemma AppendAssoc<T>(a: seq<T>, b: seq<T>, c: seq<T>)
    ensures (a + b) + c == a + (b + c)
  {
  }

  lemma UpdateInPrefix<T>(a: seq<T>, r: seq<T>, k: nat, x: T)
    requires k < |a|
    ensures (a + r)[k := x] == a[k := x] + r
  {
  }

  lemma RetainSnoc<T>(a: seq<T>, x: T, keep: T -> bool)
    ensures Retain(a + [x], keep) == Retain(a, keep) + (if keep(x) then [x] else [])
  {
    if a != [] {
      assert (a + [x])[1..] == a[1..] + [x];
      RetainSnoc(a[1..], x, keep);
    }
  }

  lemma GetIdxSnocMiss<T>(a: seq<T>, key: T -> string, x: T, id: string)
    requires key(x) != id
    ensures GetIdx(a + [x], key, id) == GetIdx(a, key, id)
  {
    if a != [] {
      assert (a + [x])[1..] == a[1..] + [x];
      GetIdxSnocMiss(a[1..], key, x, id);
    } else {
      assert [x][1..] == [];
    }
  }

  lemma IdSetSingleton<T>(x: T, key: T -> string)
    ensures IdSet([x], key) == {key(x)}
  {
    assert [x][0] == x;
  }

  lemma StepIds<T(!new)>(acc: seq<T>, key: T -> string, combine: (T, T) -> T, o: T)
    requires UniqueIds(acc, key) && KeepsKey(key, combine)
    ensures var r := UpsertStep(acc, key, combine, o);
      |acc| <= |r| && (forall i :: 0 <= i < |acc| ==> key(r[i]) == key(acc[i]))
      && UniqueIds(r, key)
      && IdSet(r, key) == IdSet(acc, key) + {key(o)}
  {
    match GetIdx(acc, key, key(o))
    case Some(k) => {
      var r := acc[k := combine(acc[k], o)];
      assert forall i :: 0 <= i < |r| ==> key(r[i]) == key(acc[i]);
      assert IdSet(r, key) == IdSet(acc, key);
    }
    case None => {
      UniqueIdsSnoc(acc, key, o);
      IdSetAppend(acc, [o], key);
      IdSetSingleton(o, key);
    }
  }

  /** The ids after the loop: those of `s` stay in place, new ones are appended once, and
    * they stay distinct. */
  lemma {:induction false} UpsertIds<T(!new)>(s: seq<T>, key: T -> string, combine: (T, T) -> T, other: seq<T>)
    requires UniqueIds(s, key) && KeepsKey(key, combine)
    ensures var r := UpsertAll(s, key, combine, other);
      |s| <= |r| && (forall i :: 0 <= i < |s| ==> key(r[i]) == key(s[i]))
      && UniqueIds(r, key)
      && IdSet(r, key) == IdSet(s, key) + IdSet(other, key)
    decreases |other|
  {
    if other != [] {
      var n := |other| - 1;
      var front, o := other[..n], other[n];
      UpsertIds(s, key, combine, front);
      StepIds(UpsertAll(s, key, combine, front), key, combine, o);
      assert other == front + [o];
      IdSetAppend(front, [o], key);
      IdSetSingleton(o, key);
    }
  }

  lemma UpsertSnoc<T>(s: seq<T>, key: T -> string, combine: (T, T) -> T, front: seq<T>, o: T)
    ensures UpsertAll(s, key, combine, front + [o]) == UpsertStep(UpsertAll(s, key, combine, front), key, combine, o)
  {
    assert (front + [o])[..|front|] == front;
  }

  lemma MatchSnoc<T>(x: T, key: T -> string, combine: (T, T) -> T, front: seq<T>, o: T)
    requires UniqueIds(front + [o], key)
    ensures CombinedWithMatch(x, key, combine, front + [o])
      == if key(x) == key(o) then combine(x, o) else CombinedWithMatch(x, key, combine, front)
  {
    UniqueIdsSnoc(front, key, o);
    if key(x) == key(o) {
      GetIdxOfMember(front + [o], key, |front|);
      assert GetIdx(front, key, key(o)).None?;
    } else {
      GetIdxSnocMiss(front, key, o, key(x));
    }
  }

  lemma AllSnocMiss<T>(s: seq<T>, key: T -> string, combine: (T, T) -> T, front: seq<T>, o: T)
    requires UniqueIds(front + [o], key) && key(o) !in IdSet(s, key)
    ensures CombinedAll(s, key, combine, front + [o]) == CombinedAll(s, key, combine, front)
  {
    var m, m' := CombinedAll(s, key, combine, front + [o]), CombinedAll(s, key, combine, front);
    forall i | 0 <= i < |s| ensures m[i] == m'[i] {
      MatchSnoc(s[i], key, combine, front, o);
    }
  }

  lemma AllSnocHit<T>(s: seq<T>, key: T -> string, combine: (T, T) -> T, front: seq<T>, o: T, k: nat)
    requires UniqueIds(s, key) && UniqueIds(front + [o], key)
    requires k < |s| && key(s[k]) == key(o)
    ensures CombinedAll(s, key, combine, front)[k] == s[k]
    ensures CombinedAll(s, key, combine, front + [o]) == CombinedAll(s, key, combine, front)[k := combine(s[k], o)]
  {
    UniqueIdsSnoc(front, key, o);
    assert GetIdx(front, key, key(o)).None?;
    var m, m' := CombinedAll(s, key, combine, front + [o]), CombinedAll(s, key, combine, front);
    forall i | 0 <= i < |s| ensures m[i] == if i == k then combine(s[k], o) else m'[i] {
      MatchSnoc(s[i], key, combine, front, o);
    }
  }

  lemma StepSnocMiss<T(!new)>(s: seq<T>, key: T -> string, combine: (T, T) -> T, front: seq<T>, o: T)
    requires UniqueIds(s, key) && UniqueIds(front + [o], key) && KeepsKey(key, combine)
    requires key(o) !in IdSet(s, key)
    ensures UpsertAll(s, key, combine, front + [o]) == UpsertAll(s, key, combine, front) + [o]
  {
    UpsertSnoc(s, key, combine, front, o);
    UpsertIds(s, key, combine, front);
    UniqueIdsSnoc(front, key, o);
    assert GetIdx(UpsertAll(s, key, combine, front), key, key(o)).None?;
  }

  lemma StepSnocHit<T(!new)>(s: seq<T>, key: T -> string, combine: (T, T) -> T, front: seq<T>, o: T, k: nat)
    requires UniqueIds(s, key) && KeepsKey(key, combine)
    requires k < |s| && key(s[k]) == key(o)
    ensures var acc := UpsertAll(s, key, combine, front);
      k < |acc| && UpsertAll(s, key, combine, front + [o]) == acc[k := combine(acc[k], o)]
  {
    UpsertSnoc(s, key, combine, front, o);
    UpsertIds(s, key, combine, front);
    var acc := UpsertAll(s, key, combine, front);
    GetIdxOfMember(acc, key, k);
  }

  lemma SpecSnocHit<T(!new)>(s: seq<T>, key: T -> string, combine: (T, T) -> T, front: seq<T>, o: T, k: nat)
    requires UniqueIds(s, key) && UniqueIds(front + [o], key) && KeepsKey(key, combine)
    requires k < |s| && key(s[k]) == key(o)
    requires UpsertAll(s, key, combine, front) == CombinedAll(s, key, combine, front) + Retain(front, IsNew(s, key))
    ensures UpsertAll(s, key, combine, front + [o]) == CombinedAll(s, key, combine, front + [o]) + Retain(front, IsNew(s, key))
  {
    var a, r := CombinedAll(s, key, combine, front), Retain(front, IsNew(s, key));
    AllSnocHit(s, key, combine, front, o, k);
    StepSnocHit(s, key, combine, front, o, k);
    UpdateInPrefix(a, r, k, combine(s[k], o));
  }

  lemma SpecSnoc<T(!new)>(s: seq<T>, key: T -> string, combine: (T, T) -> T, front: seq<T>, o: T)
    requires UniqueIds(s, key) && UniqueIds(front + [o], key) && KeepsKey(key, combine)
    requires UpsertAll(s, key, combine, front) == CombinedAll(s, key, combine, front) + Retain(front, IsNew(s, key))
    ensures UpsertAll(s, key, combine, front + [o]) == CombinedAll(s, key, combine, front + [o]) + Retain(front + [o], IsNew(s, key))
  {
    var r := Retain(front, IsNew(s, key));
    RetainSnoc(front, o, IsNew(s, key));
    if key(o) in IdSet(s, key) {
      var k :| 0 <= k < |s| && key(s[k]) == key(o);
      assert !IsNew(s, key)(o);
      AppendEmpty(r);
      SpecSnocHit(s, key, combine, front, o, k);
    } else {
      assert IsNew(s, key)(o);
      AllSnocMiss(s, key, combine, front, o);
      StepSnocMiss(s, key, combine, front, o);
      AppendAssoc(CombinedAll(s, key, combine, front), r, [o]);
    }
  }

  /** With distinct ids on both sides, the loop combines every record of `s`, in place, with
    * the record of `other` carrying its id, and appends the records of `other` whose id is
    * new, in their order. */
  lemma {:induction false} UpsertSpec<T(!new)>(s: seq<T>, key: T -> string, combine: (T, T) -> T, other: seq<T>)
    requires UniqueIds(s, key) && UniqueIds(other, key) && KeepsKey(key, combine)
    ensures UpsertAll(s, key, combine, other) == CombinedAll(s, key, combine, other) + Retain(other, IsNew(s, key))
    decreases |other|
  {
    if other == [] {
      assert CombinedAll(s, key, combine, other) == s;
    } else {
      var n := |other| - 1;
      var front, o := other[..n], other[n];
      assert other == front + [o];
      UniqueIdsPrefix(other, key, n);
      UpsertSpec(s, key, combine, front);
      SpecSnoc(s, key, combine, front, o);
    }
  }

  /** The number of records grows by the number of new ids only. */
  lemma UpsertSize<T(!new)>(s: seq<T>, key: T -> string, combine: (T, T) -> T, other: seq<T>)
    requires UniqueIds(s, key) && UniqueIds(other, key) && KeepsKey(key, combine)
    ensures |UpsertAll(s, key, combine, other)| == |s| + |Retain(other, IsNew(s, key))|
  {
    UpsertSpec(s, key, combine, other);
  }
}
