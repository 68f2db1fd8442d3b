/** The in-memory registry. It keeps the item objects themselves, not copies. */
module Registry {
  import opened Wrappers
  import opened Item

  class MemoryRegistry {
    var items: map<string, ResolvableItem>
    /** The ids in the order in which they were first stored. */
    var order: seq<string>

    ghost predicate Valid()
      reads this
    {
      && (forall i, j :: 0 <= i < j < |order| ==> order[i] != order[j])
      && (forall id :: id in order <==> id in items)
      && forall id :: id in items ==> items[id].id == id
    }

    constructor ()
      ensures Valid() && items == map[]
    {
      items := map[];
      order := [];
    }

    /** The one stored object that carries the id, which is the object last stored under it. */
    method Get(id: string) returns (item: Option<ResolvableItem>)
      requires Valid()
      ensures item.Some? <==> id in order
      ensures forall stored :: stored in items.Values ==> (stored.id == id <==> item == Some(stored))
    {
      item := if id in items then Some(items[id]) else None;
    }

    method Upsert(item: ResolvableItem)
      requires Valid()
      modifies this
      ensures Valid()
      ensures items == old(items)[item.id := item]
      ensures order == if item.id in old(items) then old(order) else old(order) + [item.id]
    {
      if item.id !in items {
        order := order + [item.id];
      }
      items := items[item.id := item];
    }

    /** Exactly the stored items now pending discovery, in storing order. */
    method ListPendingDiscovery() returns (pending: seq<ResolvableItem>)
      requires Valid()
      ensures forall item :: item in pending <==> item in items.Values && item.status == PendingDiscovery
      ensures exists at: seq<nat> ::
                && |at| == |pending|
                && (forall i, j :: 0 <= i < j < |at| ==> at[i] < at[j])
                && (forall i :: 0 <= i < |at| ==>
                      at[i] < |order| && order[at[i]] in items && pending[i] == items[order[at[i]]])
    {
      pending := [];
      ghost var at: seq<nat> := [];
      for k := 0 to |order|
        invariant |at| == |pending| <= k
        invariant forall i, j :: 0 <= i < j < |at| ==> at[i] < at[j]
        invariant forall i :: 0 <= i < |at| ==> at[i] < k && order[at[i]] in items && pending[i] == items[order[at[i]]]
        invariant forall i :: 0 <= i < |at| ==> pending[i].status == PendingDiscovery
        invariant forall i :: 0 <= i < k && order[i] in items && items[order[i]].status == PendingDiscovery ==>
                    items[order[i]] in pending
      {
        assert order[k] in order;
        if items[order[k]].status == PendingDiscovery {
          pending := pending + [items[order[k]]];
          at := at + [k];
        }
      }
      forall item | item in items.Values && item.status == PendingDiscovery ensures item in pending {
        var id :| id in items && items[id] == item;
        var i :| 0 <= i < |order| && order[i] == id;
      }
    }
  }
}
