/** The supersedes chains of an item map: the head a writer looks for, the child test a
    reader makes, and the shape invariant under which the two agree. */
module Chains {
  import opened Basics
  import opened Uuids
  import opened Records

  type Items = map<Uuid, Item>

  /** The candidates `_latest_descendant` accepts as the next head. */
  predicate IsNewer(items: Items, head: Item, id: Uuid) {
    id in items && items[id].tenant == head.tenant && items[id].supersedes == Some(head.id)
    && items[id].revision > head.revision
  }

  function Above(items: Items, revision: int): set<Uuid> {
    set id | id in items && items[id].revision > revision
  }

  lemma AboveShrinks(items: Items, head: Item, id: Uuid)
    requires IsNewer(items, head, id)
    ensures |Above(items, items[id].revision)| < |Above(items, head.revision)|
  {
    var big, small := Above(items, head.revision), Above(items, items[id].revision);
    assert small <= big - {id};
    SubsetSize(small, big - {id});
  }

  /** The end of the chain starting at `head`; defined for every item map. */
  ghost function Latest(items: Items, head: Item): (r: Item)
    ensures forall id :: !IsNewer(items, r, id)
    ensures r.revision >= head.revision && r.tenant == head.tenant
    ensures r == head <==> forall id :: !IsNewer(items, head, id)
    decreases |Above(items, head.revision)|
  {
    if id :| IsNewer(items, head, id) then
      AboveShrinks(items, head, id);
      Latest(items, items[id])
    else head
  }

  // ---------------------------------------------------------------- shape

  ghost predicate Keyed(items: Items) {
    forall id :: id in items ==> items[id].id == id
  }

  ghost predicate Linked(items: Items) {
    forall id :: id in items && items[id].supersedes.Some? ==>
      var p := items[id].supersedes.value;
      p in items && items[p].tenant == items[id].tenant && items[p].revision < items[id].revision
  }

  ghost predicate Linear(items: Items) {
    forall a, b :: (a in items && b in items && items[a].supersedes.Some?
                    && items[a].supersedes == items[b].supersedes) ==> a == b
  }

  /** Every parent exists in the child's tenant with a smaller revision, and has one child. */
  ghost predicate WellShaped(items: Items) {
    Keyed(items) && Linked(items) && Linear(items)
  }

  predicate HasChild(items: Items, id: Uuid) {
    exists c :: c in items && items[c].supersedes == Some(id)
  }

  /** In a well-shaped map the writer's and the reader's child test are the same. */
  lemma NewerIsChild(items: Items, p: Uuid, id: Uuid)
    requires WellShaped(items) && p in items
    ensures IsNewer(items, items[p], id) <==> id in items && items[id].supersedes == Some(p)
  {}

  lemma LeafHasNoChild(items: Items, id: Uuid)
    requires WellShaped(items) && id in items
    ensures HasChild(items, id) <==> Latest(items, items[id]) != items[id]
    ensures HasChild(items, id) <==> Latest(items, items[id]).id != id
  {
    if HasChild(items, id) {
      var c :| c in items && items[c].supersedes == Some(id);
      NewerIsChild(items, id, c);
      LatestStored(items, id);
    } else {
      forall c ensures !IsNewer(items, items[id], c) { NewerIsChild(items, id, c); }
    }
  }

  lemma {:induction false} LatestStored(items: Items, id: Uuid)
    requires WellShaped(items) && id in items
    ensures Latest(items, items[id]).id in items
    ensures items[Latest(items, items[id]).id] == Latest(items, items[id])
    decreases |Above(items, items[id].revision)|
  {
    if c :| IsNewer(items, items[id], c) {
      AboveShrinks(items, items[id], c);
      LatestOfChild(items, c);
      LatestStored(items, c);
    }
  }

  /** Parent and child lie on the same chain. */
  lemma LatestOfChild(items: Items, c: Uuid)
    requires WellShaped(items) && c in items && items[c].supersedes.Some?
    ensures Latest(items, items[items[c].supersedes.value]) == Latest(items, items[c])
  {
    var p := items[c].supersedes.value;
    NewerIsChild(items, p, c);
    assert IsNewer(items, items[p], c);
    forall d | IsNewer(items, items[p], d) ensures d == c {}
  }

  function Below(items: Items, revision: int): set<Uuid> {
    set id | id in items && items[id].revision < revision
  }

  /** The first revision of the chain through `id`. */
  ghost function Root(items: Items, id: Uuid): (r: Uuid)
    requires WellShaped(items) && id in items
    ensures r in items && items[r].supersedes.None?
    decreases |Below(items, items[id].revision)|
  {
    if items[id].supersedes.None? then id
    else
      var p := items[id].supersedes.value;
      assert Below(items, items[p].revision) <= Below(items, items[id].revision) - {p};
      SubsetSize(Below(items, items[p].revision), Below(items, items[id].revision) - {p});
      Root(items, p)
  }

  lemma {:induction false} RootSharesLatest(items: Items, id: Uuid)
    requires WellShaped(items) && id in items
    ensures Latest(items, items[Root(items, id)]) == Latest(items, items[id])
    decreases |Below(items, items[id].revision)|
  {
    if items[id].supersedes.Some? {
      var p := items[id].supersedes.value;
      assert Below(items, items[p].revision) <= Below(items, items[id].revision) - {p};
      SubsetSize(Below(items, items[p].revision), Below(items, items[id].revision) - {p});
      LatestOfChild(items, id);
      RootSharesLatest(items, p);
    }
  }

  lemma {:induction false} LatestSharesRoot(items: Items, id: Uuid)
    requires WellShaped(items) && id in items
    ensures Latest(items, items[id]).id in items
    ensures Root(items, Latest(items, items[id]).id) == Root(items, id)
    decreases |Above(items, items[id].revision)|
  {
    LatestStored(items, id);
    if c :| IsNewer(items, items[id], c) {
      AboveShrinks(items, items[id], c);
      LatestOfChild(items, c);
      LatestSharesRoot(items, c);
    }
  }

  /** Chains are simple paths: one root and one leaf each, and two items lie on the same
      chain exactly when they share either end. */
  lemma OneLeafPerChain(items: Items, a: Uuid, b: Uuid)
    requires WellShaped(items) && a in items && b in items
    ensures Root(items, a) == Root(items, b) <==> Latest(items, items[a]) == Latest(items, items[b])
    ensures Latest(items, items[a]).id in items
    ensures !HasChild(items, Latest(items, items[a]).id)
  {
    RootSharesLatest(items, a);
    RootSharesLatest(items, b);
    LatestSharesRoot(items, a);
    LatestSharesRoot(items, b);
    LatestStored(items, a);
    LeafHasNoChild(items, Latest(items, items[a]).id);
  }

  // ---------------------------------------------------------------- readers

  predicate Tombstone(status: MemoryStatus) {
    status == MemoryStatus.Rejected || status == Archived
  }

  /** `is_recallable_head`. */
  predicate IsRecallableHead(items: Items, tenant: Uuid, id: Uuid) {
    id in items && items[id].tenant == tenant && !Tombstone(items[id].status)
    && !exists c :: c in items && items[c].tenant == tenant && items[c].supersedes == Some(id)
  }

  /** Readers recall exactly the items a writer would accept as a current parent. */
  lemma RecallableIffCurrent(items: Items, tenant: Uuid, id: Uuid)
    requires WellShaped(items) && id in items && items[id].tenant == tenant
    requires !Tombstone(items[id].status)
    ensures IsRecallableHead(items, tenant, id) <==> Latest(items, items[id]) == items[id]
  {
    LeafHasNoChild(items, id);
  }

  // ---------------------------------------------------------------- growth

  /** What a new row must satisfy for the map to stay well shaped. */
  ghost predicate MayJoin(items: Items, item: Item) {
    item.id !in items &&
    (item.supersedes.Some? ==>
       var p := item.supersedes.value;
       p in items && items[p].tenant == item.tenant && items[p].revision < item.revision
       && !HasChild(items, p))
  }

  /** Inserting a fresh row keeps the shape exactly when the row may join: a root, or a newer
      replacement of a current head in the same tenant. */
  lemma JoinKeepsShape(items: Items, item: Item)
    requires WellShaped(items) && item.id !in items
    ensures WellShaped(items[item.id := item]) <==> MayJoin(items, item)
  {
    var next := items[item.id := item];
    assert forall id :: id in items ==> id in next && next[id] == items[id];
    if WellShaped(next) && item.supersedes.Some? {
      var p := item.supersedes.value;
      assert item.id in next && next[item.id] == item;
      forall c | c in items ensures items[c].supersedes != Some(p) {
        assert next[c] == items[c];
      }
    }
  }
}
