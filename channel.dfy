/** The `self.p` handle that `Encode` and `Decode` of common/encfstools.py keep on a
    long-lived `encfsctl` process: started on first use, replaced when it has exited,
    and used for one line written and one line read per call. */
module Channel {

  /** Whether `self.p` exists and, if so, whether its `returncode` is still `None`. */
  datatype Proc = Absent | Running | Exited

  /** What happens on the pipe, in order. */
  datatype Event =
    | Spawn(command: seq<string>)   // start_process()
    | Discard                       // del self.p
    | Write(query: string)          // self.p.stdin.write(query + newline)
    | Read(answer: string)          // self.p.stdout.readline()
    | Finish                        // self.p.communicate() in close()

  /** The start-up that precedes a call, given the handle's state before it. */
  function Launch(command: seq<string>, prior: Proc): (e: seq<Event>)
    ensures prior == Running <==> e == []
  {
    match prior
    case Absent => [Spawn(command)]
    case Exited => [Discard, Spawn(command)]
    case Running => []
  }

  /** One write and one read for each query, in order. */
  function Rounds(tool: string -> string, qs: seq<string>): (e: seq<Event>)
    ensures |e| == 2 * |qs|
  {
    if qs == [] then [] else [Write(qs[0]), Read(tool(qs[0]))] + Rounds(tool, qs[1..])
  }

  /** Everything a series of calls does to the pipe: a start-up before the first
      call if the process is not running, then one round trip per query. */
  function Transcript(tool: string -> string, command: seq<string>, prior: Proc, qs: seq<string>): seq<Event>
  {
    if qs == [] then [] else Launch(command, prior) + Rounds(tool, qs)
  }

  /** The handle's state after a series of calls. */
  function After(prior: Proc, qs: seq<string>): Proc
  {
    if qs == [] then prior else Running
  }

  /** The `k`-th query is written as the `2k`-th event and its answer read right after. */
  lemma {:induction false} RoundsAt(tool: string -> string, qs: seq<string>)
    ensures forall k :: 0 <= k < |qs| ==>
      Rounds(tool, qs)[2 * k] == Write(qs[k]) && Rounds(tool, qs)[2 * k + 1] == Read(tool(qs[k]))
  {
    if qs != [] {
      RoundsAt(tool, qs[1..]);
      forall k | 1 <= k < |qs|
        ensures Rounds(tool, qs)[2 * k] == Write(qs[k]) && Rounds(tool, qs)[2 * k + 1] == Read(tool(qs[k]))
      {
        assert qs[1..][k - 1] == qs[k];
      }
    }
  }

  lemma {:induction false} RoundsConcat(tool: string -> string, a: seq<string>, b: seq<string>)
    ensures Rounds(tool, a + b) == Rounds(tool, a) + Rounds(tool, b)
  {
    if a == [] {
      assert a + b == b;
    } else {
      assert (a + b)[1..] == a[1..] + b;
      RoundsConcat(tool, a[1..], b);
    }
  }

  /** Two series of calls in a row leave the same trace as one series of all their queries. */
  lemma TranscriptConcat(tool: string -> string, command: seq<string>, prior: Proc, a: seq<string>, b: seq<string>)
    ensures Transcript(tool, command, prior, a) + Transcript(tool, command, After(prior, a), b)
         == Transcript(tool, command, prior, a + b)
    ensures After(After(prior, a), b) == After(prior, a + b)
  {
    if a == [] {
      assert a + b == b;
    } else if b == [] {
      assert a + b == a;
    } else {
      var l, ra, rb := Launch(command, prior), Rounds(tool, a), Rounds(tool, b);
      assert a + b != [];
      assert Launch(command, Running) == [];
      RoundsConcat(tool, a, b);
      EventsAssoc(l, ra, rb);
    }
  }

  /** Chaining two `Answered` steps. */
  lemma Chain(tool: string -> string, command: seq<string>,
              e0: seq<Event>, p0: Proc, a: seq<string>,
              e1: seq<Event>, p1: Proc, b: seq<string>,
              e2: seq<Event>, p2: Proc)
    requires e1 == e0 + Transcript(tool, command, p0, a) && p1 == After(p0, a)
    requires e2 == e1 + Transcript(tool, command, p1, b) && p2 == After(p1, b)
    ensures e2 == e0 + Transcript(tool, command, p0, a + b) && p2 == After(p0, a + b)
  {
    TranscriptConcat(tool, command, p0, a, b);
    var ta, tb := Transcript(tool, command, p0, a), Transcript(tool, command, p1, b);
    EventsAssoc(e0, ta, tb);
  }

  lemma EventsAssoc(x: seq<Event>, y: seq<Event>, z: seq<Event>)
    ensures (x + y) + z == x + (y + z)
  {
  }

  class Pipe {
    /** The external tool, as the line it answers to each query. */
    const tool: string -> string
    /** The command line `start_process` runs. */
    const command: seq<string>
    var proc: Proc
    var events: seq<Event>

    constructor (tool: string -> string, command: seq<string>)
      ensures this.tool == tool && this.command == command
      ensures proc == Absent && events == []
    {
      this.tool := tool;
      this.command := command;
      proc := Absent;
      events := [];
    }

    /** The pipe grew by exactly the calls for `qs`, starting from the given state. */
    ghost predicate Answered(oldEvents: seq<Event>, oldProc: Proc, qs: seq<string>)
      reads this
    {
      events == oldEvents + Transcript(tool, command, oldProc, qs) && proc == After(oldProc, qs)
    }

    /** `start_process`: spawn `encfsctl` in pipe mode (the password side channel is not modelled). */
    method StartProcess()
      modifies this
      ensures proc == Running && events == old(events) + [Spawn(command)]
    {
      proc := Running;
      events := events + [Spawn(command)];
    }

    /** The shared first half of `Encode.path` and `Decode.path`: start the process if
        there is none, restart it if it has exited, write the query, read one line. */
    method Exchange(query: string) returns (answer: string)
      modifies this
      ensures answer == tool(query)
      ensures proc == Running
      ensures events == old(events) + Launch(command, old(proc)) + [Write(query), Read(answer)]
      ensures Answered(old(events), old(proc), [query])
    {
      if proc == Absent {
        StartProcess();
      }
      if proc == Exited {
        proc := Absent;
        events := events + [Discard];
        StartProcess();
      }
      events := events + [Write(query)];
      answer := tool(query);
      events := events + [Read(answer)];
    }

    /** `close`: only a process that is still running is waited for; calling it again
        does nothing. `communicate()` sets `returncode`, so a later call restarts it. */
    method Close()
      modifies this
      ensures proc == (if old(proc) == Running then Exited else old(proc))
      ensures events == old(events) + (if old(proc) == Running then [Finish] else [])
    {
      if proc == Running {
        events := events + [Finish];
        proc := Exited;
      }
    }
  }
}
