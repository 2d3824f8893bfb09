// Singly linked items, as the queues of the work crew and the work queue have them:
// the links lead from the first item through all others, each once, and the values of
// the items in this order are the queue.
module LinkedItems {
  class Item<T> {
    const value: T
    var next: Item?<T>

    constructor (value: T)
      ensures this.value == value && next == null
    {
      this.value, next := value, null;
    }
  }

  // The links lead from first through the items, each once, and end there.
  ghost predicate Chained<T>(first: Item?<T>, items: seq<Item<T>>)
    reads items
  {
    first == (if items == [] then null else items[0]) &&
    (forall i :: 0 <= i < |items| - 1 ==> items[i].next == items[i + 1]) &&
    (items != [] ==> items[|items| - 1].next == null) &&
    forall i, j :: 0 <= i < j < |items| ==> items[i] != items[j]
  }

  function Values<T>(items: seq<Item<T>>): (r: seq<T>)
    ensures |r| == |items| && forall i :: 0 <= i < |r| ==> r[i] == items[i].value
  {
    if items == [] then [] else Values(items[..|items| - 1]) + [items[|items| - 1].value]
  }

  lemma ValuesAdded<T>(items: seq<Item<T>>, item: Item<T>)
    ensures Values(items + [item]) == Values(items) + [item.value]
  {
  }

  lemma ValuesTaken<T>(items: seq<Item<T>>)
    requires items != []
    ensures Values(items[1..]) == Values(items)[1..]
  {
  }

  lemma FirstOfChain<T>(first: Item?<T>, items: seq<Item<T>>)
    requires Chained(first, items)
    ensures first == null <==> items == []
  {
  }
}
