/** merge-ntfs/src/fuse.rs: the `Fuse` trait is the `Unify` trait under another name, with
  * the same implementations line for line. Each member here is the corresponding `Unify`
  * member, so every property proved there holds for `Fuse` as well. */
module Fuse {
  import Unify
  import IdCollection
  import Upsert

  /** `object_properties_fuse`: first-wins against the keys `props` had before the call. */
  method ObjectPropertiesFuse(props: Unify.KeysValues, other: Unify.KeysValues) returns (r: Unify.KeysValues)
    ensures r == Unify.PropertiesUnified(props, other)
    ensures forall k, v :: k in Unify.Keys(props) ==> ((k, v) in r <==> (k, v) in props)
    ensures forall k, v :: (k, v) in other && k !in Unify.Keys(props) ==> (k, v) in r
  {
    r := Unify.ObjectPropertiesUnify(props, other);
  }

  /** `fuse` for one record: the per-kind union of `Unify.UnifyObject`. */
  function FuseObject(self: Unify.Object, other: Unify.Object): (r: Unify.Object)
    ensures r == Unify.UnifyObject(self, other)
    ensures r.id == self.id && self.codes <= r.codes && self.comment_links <= r.comment_links
    ensures self.object_properties <= r.object_properties
  {
    Unify.UnifyObjectSpec(self, other);
    Unify.UnifyObject(self, other)
  }

  /** `Collection::fuse`: pushes every object of `other`, in order. */
  method FuseCollection<T>(s: seq<T>, other: seq<T>) returns (r: seq<T>)
    ensures r == s + other
  {
    r := Unify.UnifyCollection(s, other);
  }

  /** `CollectionWithId::fuse`: fuses on a matching id, pushes otherwise; ids stay distinct. */
  method FuseCollectionWithId(s: seq<Unify.Object>, other: seq<Unify.Object>) returns (r: seq<Unify.Object>)
    requires IdCollection.UniqueIds(s, Unify.Key) && IdCollection.UniqueIds(other, Unify.Key)
    ensures r == Upsert.CombinedAll(s, Unify.Key, Unify.UnifyObject, other) + IdCollection.Retain(other, Upsert.IsNew(s, Unify.Key))
    ensures IdCollection.UniqueIds(r, Unify.Key)
  {
    r := Unify.UnifyCollectionWithId(s, other);
    Unify.UnifyWithIdSpec(s, other);
  }
}
