/** Field-level union of two records that share an id (merge-ntfs/src/unify.rs): code sets
  * and comment-link sets are unioned, object properties are first-wins by key, and an
  * id-keyed collection either unifies an incoming record into the one with its id or
  * appends it. The Rust trait is dispatched per record kind; here the kind is a tag of
  * the record. Each `&mut self` update is a method that returns the updated value: a Rust
  * `&mut` is never aliased, so the caller sees exactly that value. */
module Unify {
  import opened Wrappers
  import IdCollection
  import Upsert

  /** `KeysValues`: a set of `(key, value)` pairs, used for codes and object properties. */
  type KeysValues = set<(string, string)>

  /** `CommentLinksT`: a set of handles into the comment collection. */
  type CommentLinks = set<IdCollection.Idx>

  datatype Kind = Network | Line | Route | StopPoint | StopArea | StopLocation

  /** A record of one of the kinds that can be unified. `name` stands for every scalar
    * field, which unification never changes. */
  datatype Object = Object(kind: Kind, id: string, name: string, codes: KeysValues,
                           comment_links: CommentLinks, object_properties: KeysValues)

  function Key(o: Object): string { o.id }

  function Keys(props: KeysValues): set<string>
  {
    set p | p in props :: p.0
  }

  /** Object properties after unification: the pairs of `other` whose key is not a key of
    * `props` before the call are added. */
  function PropertiesUnified(props: KeysValues, other: KeysValues): KeysValues
  {
    props + set p | p in other && p.0 !in Keys(props)
  }

  /** `object_properties_unify`: the keys are collected once, then each pair of `other` is
    * inserted when its key was not among them. */
  method ObjectPropertiesUnify(props: KeysValues, other: KeysValues) returns (r: KeysValues)
    ensures r == PropertiesUnified(props, other)
  {
    var keys := Keys(props);
    r := props;
    var rest := other;
    while rest != {}
      invariant rest <= other
      invariant r == props + set p | p in other - rest && p.0 !in keys
      decreases |rest|
    {
      var p :| p in rest;
      if p.0 !in keys {
        r := r + {p};
      }
      rest := rest - {p};
    }
  }

  /** The values `self` had for its keys never change. */
  lemma PropertiesKeepExisting(props: KeysValues, other: KeysValues, k: string, v: string)
    requires k in Keys(props)
    ensures (k, v) in PropertiesUnified(props, other) <==> (k, v) in props
  {
  }

  /** Every pair of `other` under a new key is inserted, even when several share that key. */
  lemma PropertiesAddNewKeys(props: KeysValues, other: KeysValues, k: string, v: string)
    requires (k, v) in other && k !in Keys(props)
    ensures (k, v) in PropertiesUnified(props, other)
  {
  }

  /** Two pairs of `other` with one new key both end up in the result. */
  lemma PropertiesSameNewKeyTwice()
    ensures PropertiesUnified({}, {("k", "a"), ("k", "b")}) == {("k", "a"), ("k", "b")}
  {
    var other := {("k", "a"), ("k", "b")};
    assert Keys({}) == {};
    assert (set p | p in other && p.0 !in Keys({})) == other;
  }

  /** Unifying properties with themselves changes nothing. */
  lemma PropertiesIdempotent(props: KeysValues)
    ensures PropertiesUnified(props, props) == props
  {
  }

  /** `unify` for one record, dispatched on its kind. */
  function UnifyObject(self: Object, other: Object): Object
  {
    match self.kind
    case Network => self.(codes := self.codes + other.codes)
    case StopLocation => self.(comment_links := self.comment_links + other.comment_links)
    case _ =>
      self.(codes := self.codes + other.codes,
            comment_links := self.comment_links + other.comment_links,
            object_properties := PropertiesUnified(self.object_properties, other.object_properties))
  }

  /** What unification promises for every kind: the id, kind and scalar fields stay those of
    * `self`, nothing `self` had is lost, and only what `other` brings is added. */
  lemma UnifyObjectSpec(self: Object, other: Object)
    ensures var r := UnifyObject(self, other);
      r.kind == self.kind && r.id == self.id && r.name == self.name
      && self.codes <= r.codes <= self.codes + other.codes
      && self.comment_links <= r.comment_links <= self.comment_links + other.comment_links
      && self.object_properties <= r.object_properties <= self.object_properties + other.object_properties
      && (r.codes == if self.kind == StopLocation then self.codes else self.codes + other.codes)
      && (r.comment_links == self.comment_links + other.comment_links || self.kind == Network)
      && (self.kind in {Network, StopLocation} ==> r.object_properties == self.object_properties)
  {
  }

  /** A network only gains the other network's codes. */
  lemma UnifyNetwork(self: Object, other: Object)
    requires self.kind == Network
    ensures UnifyObject(self, other) == self.(codes := self.codes + other.codes)
  {
  }

  /** Unifying a record with an identical copy gives the record back. */
  lemma UnifyObjectIdempotent(o: Object)
    ensures UnifyObject(o, o) == o
  {
    PropertiesIdempotent(o.object_properties);
  }

  /** `Collection::unify`: every object of `other` is pushed, in order, duplicates included. */
  method UnifyCollection<T>(s: seq<T>, other: seq<T>) returns (r: seq<T>)
    ensures r == s + other
  {
    r := s;
    var i := 0;
    while i < |other|
      invariant i <= |other| && r == s + other[..i]
    {
      r := r + [other[i]];
      assert other[..i + 1] == other[..i] + [other[i]];
      i := i + 1;
    }
    assert other[..i] == other;
  }

  lemma UnifyKeepsKey()
    ensures Upsert.KeepsKey(Key, UnifyObject)
  {
  }

  /** `CollectionWithId::unify`: each object of `other` is unified into the record with its
    * id when there is one, and pushed otherwise. */
  method UnifyCollectionWithId(s: seq<Object>, other: seq<Object>) returns (r: seq<Object>)
    ensures r == Upsert.UpsertAll(s, Key, UnifyObject, other)
  {
    r := s;
    var i := 0;
    while i < |other|
      invariant i <= |other| && r == Upsert.UpsertAll(s, Key, UnifyObject, other[..i])
    {
      var o := other[i];
      match IdCollection.GetIdx(r, Key, o.id) {
        case Some(idx) => r := r[idx := UnifyObject(r[idx], o)];
        case None => r := r + [o];
      }
      assert other[..i + 1][..i] == other[..i];
      i := i + 1;
    }
    assert other[..i] == other;
  }

  /** Unifying collections with distinct ids: every record of `s` is unified, in place, with
    * the record of `other` carrying its id; the records of `other` with a new id are
    * appended in their order; ids stay distinct, and the size grows by the new ids only. */
  lemma UnifyWithIdSpec(s: seq<Object>, other: seq<Object>)
    requires IdCollection.UniqueIds(s, Key) && IdCollection.UniqueIds(other, Key)
    ensures var r := Upsert.UpsertAll(s, Key, UnifyObject, other);
      && r == Upsert.CombinedAll(s, Key, UnifyObject, other) + IdCollection.Retain(other, Upsert.IsNew(s, Key))
      && IdCollection.UniqueIds(r, Key)
      && IdCollection.IdSet(r, Key) == IdCollection.IdSet(s, Key) + IdCollection.IdSet(other, Key)
      && |r| == |s| + |IdCollection.Retain(other, Upsert.IsNew(s, Key))|
  {
    UnifyKeepsKey();
    Upsert.UpsertSpec(s, Key, UnifyObject, other);
    Upsert.UpsertIds(s, Key, UnifyObject, other);
  }
}
