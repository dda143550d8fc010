/**
 * The print server and its clients (kumade/concurrent/printer.py). Worker
 * processes do not print directly: a client turns each `print` into a
 * command on a shared queue, and the server prints the commands in queue
 * order as lines "[client] message", until it takes the exit command.
 */
module Printer {
  import opened Wrappers
  import opened Names
  import opened Queues

  /** A message from a named client; the empty client name marks the exit command. */
  datatype PrintCommand = PrintCommand(clientName: string, message: string)
  {
    predicate IsExit()
    {
      clientName == ""
    }
  }

  /** `PrintCommand.exit()`. */
  function ExitCommand(): PrintCommand
  {
    PrintCommand("", "")
  }

  /** The line the server prints for a command. */
  function Line(c: PrintCommand): string
  {
    "[" + c.clientName + "] " + c.message
  }

  /** The lines printed for `cs`, in order. */
  function Lines(cs: seq<PrintCommand>): (lines: seq<string>)
    ensures |lines| == |cs|
    ensures forall i :: 0 <= i < |cs| ==> lines[i] == Line(cs[i])
  {
    seq(|cs|, i requires 0 <= i < |cs| => Line(cs[i]))
  }

  predicate NoExit(cs: seq<PrintCommand>)
  {
    forall i :: 0 <= i < |cs| ==> !cs[i].IsExit()
  }

  /**
   * Joining two non-empty runs of objects is joining each and putting one
   * separator between them: the separator stands exactly between neighbours.
   */
  lemma {:induction false} JoinConcat(sep: string, a: seq<string>, b: seq<string>)
    requires a != [] && b != []
    ensures Join(sep, a + b) == Join(sep, a) + sep + Join(sep, b)
    decreases |a|
  {
    if |a| == 1 {
      assert (a + b)[1..] == b;
    } else {
      assert (a + b)[1..] == a[1..] + b;
      JoinConcat(sep, a[1..], b);
    }
  }

  /** What the server's loop does with a queue: the lines printed, what is left, and whether it took an exit. */
  datatype Served = Served(lines: seq<string>, rest: seq<PrintCommand>, exited: bool)

  /** The server's loop over the queued commands, stopping at the first exit command. */
  function Serve(cs: seq<PrintCommand>): Served
    decreases |cs|
  {
    if cs == [] then Served([], [], false)
    else if cs[0].IsExit() then Served([], cs[1..], true)
    else
      var r := Serve(cs[1..]);
      Served([Line(cs[0])] + r.lines, r.rest, r.exited)
  }

  /** Commands ahead of the first exit are printed in order; the exit is consumed and what follows it stays queued. */
  lemma {:induction false} ServeUntilExit(before: seq<PrintCommand>, exit: PrintCommand, after: seq<PrintCommand>)
    requires NoExit(before) && exit.IsExit()
    ensures Serve(before + [exit] + after) == Served(Lines(before), after, true)
    decreases |before|
  {
    if before == [] {
      assert before + [exit] + after == [exit] + after;
    } else {
      assert (before + [exit] + after)[1..] == before[1..] + [exit] + after;
      ServeUntilExit(before[1..], exit, after);
      assert Lines(before) == [Line(before[0])] + Lines(before[1..]);
    }
  }

  /** Without an exit command every queued command is printed and the queue runs dry. */
  lemma {:induction false} ServeWithoutExit(cs: seq<PrintCommand>)
    requires NoExit(cs)
    ensures Serve(cs) == Served(Lines(cs), [], false)
    decreases |cs|
  {
    if cs != [] {
      ServeWithoutExit(cs[1..]);
      assert Lines(cs) == [Line(cs[0])] + Lines(cs[1..]);
    }
  }

  class PrintClient {
    const name: string
    const queue: Queue<PrintCommand>

    /** A client's name is never empty, so nothing it sends is an exit command. */
    predicate Valid()
    {
      |name| > 0
    }

    /** `PrintClient(name, queue)`: the empty name is refused by an assertion. */
    constructor(name: string, queue: Queue<PrintCommand>)
      requires |name| > 0
      ensures Valid()
      ensures this.name == name && this.queue == queue
    {
      this.name := name;
      this.queue := queue;
    }

    /**
     * `print(*objects, sep=" ")`: one command carrying the objects' strings
     * joined by `sep`; it is never taken for the exit command.
     */
    method Print(objects: seq<string>, sep: string := " ")
      requires Valid()
      modifies queue
      ensures queue.items == old(queue.items) + [PrintCommand(name, Join(sep, objects))]
      ensures !queue.items[|queue.items| - 1].IsExit()
    {
      queue.Put(PrintCommand(name, Join(sep, objects)));
    }
  }

  class PrintServer {
    const queue: Queue<PrintCommand>
    /** Whether the server process exists. */
    var running: bool
    /** What the server process has printed, line by line. */
    var output: seq<string>

    constructor(queue: Queue<PrintCommand>)
      ensures this.queue == queue && !running && output == []
    {
      this.queue := queue;
      running := false;
      output := [];
    }

    /** `start`: a server already running is left as it is. */
    method Start()
      modifies this
      ensures running && output == old(output)
    {
      if running {
        return;
      }
      running := true;
    }

    /**
     * `stop`: a running server gets one exit command, and the join waits for
     * its loop to print everything queued before that command. With only
     * clients' commands queued, every one of them is printed and the queue is
     * left empty. A server not running is left as it is.
     */
    method Stop()
      modifies this, queue
      ensures !running
      ensures !old(running) ==> output == old(output) && queue.items == old(queue.items)
      ensures old(running) ==>
        var s := Serve(old(queue.items) + [ExitCommand()]);
        output == old(output) + s.lines && queue.items == s.rest
      ensures old(running) && NoExit(old(queue.items)) ==>
        output == old(output) + Lines(old(queue.items)) && queue.items == []
    {
      if !running {
        return;
      }
      ghost var before := queue.items;
      queue.Put(ExitCommand());
      var exited := ProcessLoop();
      if NoExit(before) {
        ServeUntilExit(before, ExitCommand(), []);
        assert before + [ExitCommand()] + [] == before + [ExitCommand()];
      }
      running := false;
    }

    /**
     * `__call__`, the server process's loop: prints "[client] message" for
     * each command in queue order and returns at the first exit command.
     * Reaching an empty queue it returns `false`, where the process would
     * wait for more.
     */
    method ProcessLoop() returns (exited: bool)
      modifies this`output, queue
      ensures var s := Serve(old(queue.items));
        output == old(output) + s.lines && queue.items == s.rest && exited == s.exited
    {
      ghost var start := queue.items;
      ghost var printed: seq<string> := [];
      while true
        invariant output == old(output) + printed
        invariant Serve(start) == Served(printed + Serve(queue.items).lines, Serve(queue.items).rest, Serve(queue.items).exited)
        decreases |queue.items|
      {
        ghost var q, p0 := queue.items, printed;
        var c := queue.Get();
        if c.None? {
          return false;
        }
        if c.value.IsExit() {
          return true;
        }
        var r := Serve(queue.items);
        assert Serve(q) == Served([Line(c.value)] + r.lines, r.rest, r.exited);
        output := output + [Line(c.value)];
        printed := printed + [Line(c.value)];
        assert printed + r.lines == p0 + Serve(q).lines;
      }
    }

    /** `create_client`: a client writing to this server's own queue. */
    method CreateClient(name: string) returns (c: PrintClient)
      requires |name| > 0
      ensures fresh(c) && c.Valid()
      ensures c.name == name && c.queue == queue
    {
      c := new PrintClient(name, queue);
    }
  }
}
