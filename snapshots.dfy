/** Value-level view of one image editor snapshot: the dictionary from item id to item and
    the ordered list of ids (back-to-front order). The class `Contents` holds exactly these
    two containers as fields; the functions here say what its operations compute. */
module Snapshots {

  /** The kind of an edit item. The model never interprets it. */
  datatype ItemType = Test | Other(tag: string)

  /** An immutable editor item. Editing an item means building a new one with the same id. */
  datatype Item = Item(itemId: string, itemType: ItemType)

  /** The two containers of a snapshot. */
  datatype Snapshot = Snapshot(itemMap: map<string, Item>, itemIds: seq<string>)

  /** No id occurs twice in the list. */
  ghost predicate Distinct(ids: seq<string>)
  {
    forall i, j :: 0 <= i < j < |ids| ==> ids[i] != ids[j]
  }

  /** The snapshot invariant: the dictionary's keys are exactly the listed ids, the list has
      no duplicates, and every item is filed under its own id. */
  ghost predicate Valid(s: Snapshot)
  {
    && Distinct(s.itemIds)
    && (forall id :: id in s.itemMap <==> id in s.itemIds)
    && (forall id :: id in s.itemMap ==> s.itemMap[id].itemId == id)
  }

  /** The snapshot a new editor starts from. */
  function Empty(): (s: Snapshot)
    ensures Valid(s)
    ensures |s.itemMap| == 0 && |s.itemIds| == 0
  {
    Snapshot(map[], [])
  }

  /** `ids` with `id` filtered out, the other ids keeping their relative order. */
  function Without(ids: seq<string>, id: string): (r: seq<string>)
    ensures |r| <= |ids|
    ensures forall x :: x in r <==> x in ids && x != id
  {
    if ids == [] then []
    else if ids[0] == id then Without(ids[1..], id)
    else [ids[0]] + Without(ids[1..], id)
  }

  /** Filtering an id out of a duplicate-free list keeps it duplicate-free. */
  lemma {:induction false} WithoutDistinct(ids: seq<string>, id: string)
    requires Distinct(ids)
    ensures Distinct(Without(ids, id))
  {
    if ids != [] {
      assert Distinct(ids[1..]) by {
        forall i, j | 0 <= i < j < |ids[1..]| ensures ids[1..][i] != ids[1..][j] {
          assert ids[1..][i] == ids[i + 1] && ids[1..][j] == ids[j + 1];
        }
      }
      WithoutDistinct(ids[1..], id);
      if ids[0] != id {
        assert ids[0] !in ids[1..] by {
          forall k | 0 <= k < |ids[1..]| ensures ids[1..][k] != ids[0] {
            assert ids[1..][k] == ids[k + 1];
          }
        }
        var rest := Without(ids[1..], id);
        var r := [ids[0]] + rest;
        forall i, j | 0 <= i < j < |r| ensures r[i] != r[j] {
          if i == 0 {
            assert r[j] == rest[j - 1];
            assert rest[j - 1] in rest;
          } else {
            assert r[i] == rest[i - 1] && r[j] == rest[j - 1];
          }
        }
      }
    }
  }

  /** Removing the id at position k of a duplicate-free list yields the list with exactly that
      position cut out: the ids before it and after it keep their order. */
  lemma {:induction false} WithoutAt(ids: seq<string>, k: nat)
    requires Distinct(ids) && k < |ids|
    ensures Without(ids, ids[k]) == ids[..k] + ids[k + 1..]
  {
    var id := ids[k];
    if k == 0 {
      WithoutAbsent(ids[1..], id);
      assert ids[..0] + ids[1..] == ids[1..];
    } else {
      assert ids[0] != id;
      assert Distinct(ids[1..]) by {
        forall i, j | 0 <= i < j < |ids[1..]| ensures ids[1..][i] != ids[1..][j] {
          assert ids[1..][i] == ids[i + 1] && ids[1..][j] == ids[j + 1];
        }
      }
      assert ids[1..][k - 1] == id;
      WithoutAt(ids[1..], k - 1);
      assert [ids[0]] + (ids[1..][..k - 1] + ids[1..][k..]) == ids[..k] + ids[k + 1..];
    }
  }

  /** Filtering an id out of a duplicate-free list cuts out the one position that holds it. */
  lemma WithoutCuts(ids: seq<string>, id: string)
    requires Distinct(ids)
    ensures forall k :: 0 <= k < |ids| && ids[k] == id ==> Without(ids, id) == ids[..k] + ids[k + 1..]
  {
    forall k | 0 <= k < |ids| && ids[k] == id
      ensures Without(ids, id) == ids[..k] + ids[k + 1..]
    {
      WithoutAt(ids, k);
    }
  }

  /** Filtering out an id that does not occur changes nothing. */
  lemma {:induction false} WithoutAbsent(ids: seq<string>, id: string)
    requires id !in ids
    ensures Without(ids, id) == ids
  {
    if ids != [] {
      assert ids[1..] + [] == ids[1..];
      assert id !in ids[1..] by {
        forall k | 0 <= k < |ids[1..]| ensures ids[1..][k] != id {
          assert ids[1..][k] == ids[k + 1];
        }
      }
      WithoutAbsent(ids[1..], id);
      assert [ids[0]] + ids[1..] == ids;
    }
  }

  /** The set of ids a list holds. */
  ghost function Elements(ids: seq<string>): (r: set<string>)
  {
    set x | x in ids
  }

  /** A duplicate-free list has as many elements as distinct ids. */
  lemma {:induction false} DistinctCardinality(ids: seq<string>)
    requires Distinct(ids)
    ensures |Elements(ids)| == |ids|
  {
    if ids != [] {
      var n := |ids| - 1;
      var front := ids[..n];
      assert Distinct(front) by {
        forall i, j | 0 <= i < j < |front| ensures front[i] != front[j] {
          assert front[i] == ids[i] && front[j] == ids[j];
        }
      }
      DistinctCardinality(front);
      assert ids[n] !in Elements(front) by {
        forall k | 0 <= k < |front| ensures front[k] != ids[n] {
          assert front[k] == ids[k];
        }
      }
      assert ids == front + [ids[n]];
      assert Elements(ids) == Elements(front) + {ids[n]};
    }
  }

  /** In a valid snapshot the dictionary and the id list have the same count. */
  lemma CountsAgree(s: Snapshot)
    requires Valid(s)
    ensures |s.itemMap| == |s.itemIds|
  {
    DistinctCardinality(s.itemIds);
    assert s.itemMap.Keys == Elements(s.itemIds);
  }

  /** Adds a new item at the front of the z-order (the end of the id list). */
  function Append(s: Snapshot, item: Item): (r: Snapshot)
    requires Valid(s) && item.itemId !in s.itemMap
    ensures Valid(r)
    ensures r.itemIds == s.itemIds + [item.itemId]
    ensures item.itemId in r.itemMap && r.itemMap[item.itemId] == item
    ensures forall k :: k in s.itemMap ==> k in r.itemMap && r.itemMap[k] == s.itemMap[k]
    ensures |r.itemMap| == |s.itemMap| + 1 && |r.itemIds| == |s.itemIds| + 1
  {
    var r := Snapshot(s.itemMap[item.itemId := item], s.itemIds + [item.itemId]);
    assert Distinct(r.itemIds) by {
      forall i, j | 0 <= i < j < |r.itemIds| ensures r.itemIds[i] != r.itemIds[j] {
        if j == |s.itemIds| {
          assert r.itemIds[i] == s.itemIds[i];
          assert s.itemIds[i] in s.itemIds;
        }
      }
    }
    CountsAgree(s);
    CountsAgree(r);
    r
  }

  /** Drops the item with the given id from both containers. */
  function Remove(s: Snapshot, id: string): (r: Snapshot)
    requires Valid(s) && id in s.itemMap
    ensures Valid(r)
    ensures id !in r.itemMap && id !in r.itemIds
    ensures forall k :: k in r.itemMap <==> k in s.itemMap && k != id
    ensures forall k :: k in r.itemMap ==> r.itemMap[k] == s.itemMap[k]
    ensures forall k :: 0 <= k < |s.itemIds| && s.itemIds[k] == id ==>
              r.itemIds == s.itemIds[..k] + s.itemIds[k + 1..]
    ensures |r.itemMap| == |s.itemMap| - 1 && |r.itemIds| == |s.itemIds| - 1
  {
    WithoutDistinct(s.itemIds, id);
    WithoutCuts(s.itemIds, id);
    var r := Snapshot(s.itemMap - {id}, Without(s.itemIds, id));
    CountsAgree(s);
    CountsAgree(r);
    r
  }

  /** Overwrites the entry of an existing id; the id list is left as it was. */
  function Replace(s: Snapshot, item: Item): (r: Snapshot)
    requires Valid(s) && item.itemId in s.itemMap
    ensures Valid(r)
    ensures r.itemIds == s.itemIds
    ensures r.itemMap.Keys == s.itemMap.Keys
    ensures r.itemMap[item.itemId] == item
    ensures forall k :: k in s.itemMap && k != item.itemId ==> r.itemMap[k] == s.itemMap[k]
    ensures |r.itemMap| == |s.itemMap| && |r.itemIds| == |s.itemIds|
  {
    Snapshot(s.itemMap[item.itemId := item], s.itemIds)
  }

  /** The items in id-list order, looked up in the dictionary. */
  function Items(s: Snapshot): (r: seq<Item>)
    requires Valid(s)
    ensures |r| == |s.itemIds|
    ensures forall i :: 0 <= i < |r| ==> r[i].itemId == s.itemIds[i]
  {
    seq(|s.itemIds|, i requires 0 <= i < |s.itemIds| => s.itemMap[s.itemIds[i]])
  }

  /** The ids of a list of items, in the same order. */
  function IdsOf(items: seq<Item>): (ids: seq<string>)
    ensures |ids| == |items|
  {
    if items == [] then [] else IdsOf(items[..|items| - 1]) + [items[|items| - 1].itemId]
  }

  /** Mapping the ordered items back to their ids gives exactly the snapshot's id list. */
  lemma {:induction false} IdsOfItems(s: Snapshot)
    requires Valid(s)
    ensures IdsOf(Items(s)) == s.itemIds
  {
    IdsOfAt(Items(s));
  }

  /** Position i of IdsOf(items) is the id of items[i]. */
  lemma {:induction false} IdsOfAt(items: seq<Item>)
    ensures forall i :: 0 <= i < |items| ==> IdsOf(items)[i] == items[i].itemId
  {
    if items != [] {
      IdsOfAt(items[..|items| - 1]);
    }
  }

  /** Removing an item right after appending it restores the snapshot. */
  lemma RemoveAfterAppend(s: Snapshot, item: Item)
    requires Valid(s) && item.itemId !in s.itemMap
    ensures Remove(Append(s, item), item.itemId) == s
  {
    var id := item.itemId;
    WithoutLast(s.itemIds, id);
    RemoveAfterUpdate(s.itemMap, id, item);
  }

  /** Dropping a key just added to a dictionary gives back the dictionary. */
  lemma RemoveAfterUpdate(m: map<string, Item>, k: string, v: Item)
    requires k !in m
    ensures m[k := v] - {k} == m
  {
  }

  /** Filtering out an id that was only appended at the end gives back the list before it. */
  lemma {:induction false} WithoutLast(ids: seq<string>, id: string)
    requires id !in ids
    ensures Without(ids + [id], id) == ids
  {
    if ids != [] {
      assert (ids + [id])[1..] == ids[1..] + [id];
      assert id !in ids[1..] by {
        forall k | 0 <= k < |ids[1..]| ensures ids[1..][k] != id {
          assert ids[1..][k] == ids[k + 1];
        }
      }
      WithoutLast(ids[1..], id);
      assert [ids[0]] + ids[1..] == ids;
    } else {
      assert ([] + [id])[1..] == [];
    }
  }

  /** Replacing an item by the one already stored changes nothing. */
  lemma ReplaceWithSame(s: Snapshot, id: string)
    requires Valid(s) && id in s.itemMap
    ensures Replace(s, s.itemMap[id]) == s
  {
    assert s.itemMap[id := s.itemMap[id]] == s.itemMap;
  }

  /** Two replaces of the same id: only the later one is visible. */
  lemma ReplaceTwice(s: Snapshot, a: Item, b: Item)
    requires Valid(s) && a.itemId in s.itemMap && b.itemId == a.itemId
    ensures Replace(Replace(s, a), b) == Replace(s, b)
  {
    UpdateTwice(s.itemMap, a.itemId, a, b);
  }

  /** Of two updates of the same key only the later one remains. */
  lemma UpdateTwice(m: map<string, Item>, k: string, v: Item, w: Item)
    ensures m[k := v][k := w] == m[k := w]
  {
  }
}
