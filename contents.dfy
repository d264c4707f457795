/** The image editor's content snapshot as an object: a dictionary from item id to item and
    the ordered id list, both updated in place. Snapshots are copied with Clone before an edit,
    so the undo history never sees a later change. */
module EditorContents {
  import S = Snapshots

  class Contents {
    /** The current state of each item, by id. */
    var itemMap: map<string, S.Item>
    /** The back-to-front order of the items. */
    var itemIds: seq<string>

    /** The two containers as one value. */
    function Value(): (s: S.Snapshot)
      reads this
    {
      S.Snapshot(itemMap, itemIds)
    }

    ghost predicate Valid()
      reads this
    {
      S.Valid(Value())
    }

    /** A new, empty snapshot. */
    constructor ()
      ensures Valid()
      ensures Value() == S.Empty()
    {
      itemMap := map[];
      itemIds := [];
    }

    /** A new object holding copies of both containers. Being fresh, it shares no state with
        this one: a method that modifies one of them leaves the other as it was. */
    method Clone() returns (copy: Contents)
      requires Valid()
      ensures fresh(copy)
      ensures copy.Valid()
      ensures copy.Value() == Value()
    {
      copy := new Contents();
      copy.itemMap := itemMap;
      copy.itemIds := itemIds;
    }

    /** Adds an item under a new id. A duplicate id is reported and changes nothing. */
    method Append(item: S.Item) returns (ok: bool)
      requires Valid()
      modifies this
      ensures Valid()
      ensures ok == (item.itemId !in old(itemMap))
      ensures ok ==> Value() == S.Append(old(Value()), item)
      ensures !ok ==> Value() == old(Value())
    {
      if item.itemId in itemMap {
        return false;
      }
      itemMap := itemMap[item.itemId := item];
      itemIds := itemIds + [item.itemId];
      ok := true;
    }

    /** Removes the item with the given item's id. A missing id is reported and changes nothing. */
    method Remove(item: S.Item) returns (ok: bool)
      requires Valid()
      modifies this
      ensures Valid()
      ensures ok == (item.itemId in old(itemMap))
      ensures ok ==> Value() == S.Remove(old(Value()), item.itemId)
      ensures !ok ==> Value() == old(Value())
    {
      if item.itemId !in itemMap {
        return false;
      }
      S.WithoutDistinct(itemIds, item.itemId);
      itemMap := itemMap - {item.itemId};
      itemIds := S.Without(itemIds, item.itemId);
      ok := true;
    }

    /** Overwrites the item stored under the given item's id; not an upsert, so a missing id is
        reported and changes nothing. */
    method Replace(item: S.Item) returns (ok: bool)
      requires Valid()
      modifies this
      ensures Valid()
      ensures ok == (item.itemId in old(itemMap))
      ensures ok ==> Value() == S.Replace(old(Value()), item)
      ensures !ok ==> Value() == old(Value())
    {
      if item.itemId !in itemMap {
        return false;
      }
      itemMap := itemMap[item.itemId := item];
      ok := true;
    }

    /** The number of items; the dictionary and the list agree on it. */
    function ItemCount(): (n: nat)
      reads this
      requires Valid()
      ensures n == |itemIds| && n == |itemMap|
    {
      S.CountsAgree(Value());
      |itemIds|
    }

    /** The items in list order, found by walking the id list and looking each id up. */
    method Items() returns (items: seq<S.Item>)
      requires Valid()
      ensures items == S.Items(Value())
    {
      items := [];
      for i := 0 to |itemIds|
        invariant |items| == i
        invariant forall j :: 0 <= j < i ==> items[j] == itemMap[itemIds[j]]
      {
        items := items + [itemMap[itemIds[i]]];
      }
    }
  }
}
