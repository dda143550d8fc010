/**
 * The `multiprocessing.Queue` objects the concurrent runner, its workers and
 * the print server share: first in, first out, and shared by reference.
 */
module Queues {
  import opened Wrappers

  class Queue<T> {
    /** The queued items, oldest first. */
    var items: seq<T>

    constructor()
      ensures items == []
    {
      items := [];
    }

    /** `put`: appends at the back. */
    method Put(x: T)
      modifies this
      ensures items == old(items) + [x]
    {
      items := items + [x];
    }

    /**
     * `get_nowait`, and `get` as far as it is modelled: the oldest item,
     * or `None` when the queue is empty (`queue.Empty` for `get_nowait`;
     * a blocking `get` would wait there).
     */
    method Get() returns (r: Option<T>)
      modifies this
      ensures old(items) == [] ==> r == None && items == []
      ensures old(items) != [] ==> r == Some(old(items)[0]) && items == old(items)[1..]
    {
      if items == [] {
        return None;
      }
      r := Some(items[0]);
      items := items[1..];
    }
  }
}
