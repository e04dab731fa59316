// The mutex-protected queue between the event loop and the workers. Each operation is one
// critical section, so one call is one atomic step.
module TsQueues {
  import opened Types

  class TsQueue<T> {
    var items: seq<T>

    constructor ()
      ensures items == []
    {
      items := [];
    }

    method Push(item: T)
      modifies this
      ensures items == old(items) + [item]
    {
      items := items + [item];
    }

    /** The step a blocked pop takes once the queue has an element. */
    method Pop() returns (item: T)
      requires items != []
      modifies this
      ensures old(items) == [item] + items
    {
      item := items[0];
      items := items[1..];
    }

    method TryPop() returns (value: Option<T>)
      modifies this
      ensures old(items) == [] ==> value == None && items == []
      ensures old(items) != [] ==> value.Some? && old(items) == [value.value] + items
    {
      if items == [] {
        return None;
      }
      value := Some(items[0]);
      items := items[1..];
    }
  }
}
