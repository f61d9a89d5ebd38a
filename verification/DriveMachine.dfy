/** The state machine of a TCP connection: that it stops, how many commands it takes on, how it waits, and
    the protocol for side IO. */
module DriveMachine {

  datatype State =
    | Waiting | Read | ParseCmd | NewCmd | Nread | Swallow | Write | Mwrite | Closing | Closed | Watch | IoQueue

  /** What an event is set up to report. */
  datatype Interest = Readable | Writable

  /** What the world does at a step.  Each state looks at the parts that concern it: whether an allocation
      succeeds, and event_del and event_add; the result of a read, what had been read of a value when the read
      was cut short, and the result of a send; and what the command parser, or the code that completes a command
      with a value, leaves behind. */
  datatype Event = Event(
    ok: bool, del: bool, add: bool, result: int, before: nat, sent: int,
    parsed: State, completed: State,
    consumed: nat, rlbytes: int, sbytes: int, responses: nat, queued: seq<bool>, closeAfterWrite: bool)

  /** A parser that asks for more input or changes the state, a completed command, and a send that takes
      something or fails. */
  predicate WellBehaved(e: Event) {
    && e.parsed in {NewCmd, Nread, Swallow, Mwrite, Closing, Watch}
    && e.completed in {NewCmd, Swallow, Mwrite, Closing}
    && e.sent != 0
  }

  /** What the log of a connection records. */
  datatype Act = Dispatch(state: State) | Reset | Transmit(outstanding: nat)

  ghost function Resets(log: seq<Act>): nat {
    if log == [] then 0 else Resets(log[..|log| - 1]) + if log[|log| - 1].Reset? then 1 else 0
  }

  lemma ResetsSnoc(log: seq<Act>, a: Act)
    ensures Resets(log + [a]) == Resets(log) + if a.Reset? then 1 else 0
  {
    assert (log + [a])[..|log|] == log;
  }

  /** No transmission while side IO is outstanding. */
  ghost predicate TransmitsAlone(log: seq<Act>) {
    forall i :: 0 <= i < |log| && log[i].Transmit? ==> log[i].outstanding == 0
  }

  /** From position n on, only the first entry can be a dispatch on Closed. */
  ghost predicate ClosedOnlyFirst(log: seq<Act>, n: nat) {
    forall i :: n < i < |log| ==> log[i] != Dispatch(Closed)
  }

  class Conn {
    const script: nat -> Event
    var clock: nat
    var state: State
    var rbytes: nat                 // bytes in the read buffer
    var rlbytes: int                // bytes of a value still to be read
    var sbytes: int                 // bytes still to be swallowed
    var unsent: nat                 // bytes and responses waiting to be sent; 0 when resp_head is null
    var closeAfterWrite: bool
    var evFlags: Interest           // ev_flags, and what the event is set up for
    var added: bool                 // the event is in the event loop
    var stack: seq<bool>            // which IO queues have a stack of pending IO
    var submitted: nat              // io_queues_submitted
    var out: set<nat>               // the queues that have been submitted and have not come back
    ghost var log: seq<Act>

    ghost predicate Valid()
      reads this
    {
      && (forall k :: WellBehaved(script(k)))
      && submitted == |out|
      && (out != {} ==> state == IoQueue)
      && (state == IoQueue && out != {} ==> !added)
      && (state == Closed ==> !added)
      && TransmitsAlone(log)
    }

    constructor (script: nat -> Event, queues: nat)
      requires forall k :: WellBehaved(script(k))
      ensures Valid() && state == NewCmd && log == [] && evFlags == Readable && added && |stack| == queues
    {
      this.script := script;
      clock, state, rbytes, rlbytes, sbytes, unsent, closeAfterWrite := 0, NewCmd, 0, 0, 0, 0, false;
      evFlags, added := Readable, true;
      stack, submitted, out, log := seq(queues, _ => false), 0, {}, [];
    }

    method Next() returns (e: Event)
      modifies this`clock
      ensures e == script(old(clock)) && clock == old(clock) + 1
    {
      e := script(clock);
      clock := clock + 1;
    }

    method Note(ghost a: Act)
      requires Valid() && (a.Transmit? ==> a.outstanding == 0)
      modifies this`log
      ensures Valid() && log == old(log) + [a]
      ensures Resets(log) == Resets(old(log)) + if a.Reset? then 1 else 0
    {
      ResetsSnoc(log, a);
      log := log + [a];
    }

    /** update_event: does nothing when the flags are set already, whether the event is in the loop or not. */
    method UpdateEvent(flags: Interest, e: Event) returns (ok: bool)
      modifies this`evFlags, this`added
      ensures ok <==> old(evFlags) == flags || (e.del && e.add)
      ensures ok ==> Rearmed(flags, old(evFlags), old(added))
      ensures old(evFlags) == flags || !e.del ==> evFlags == old(evFlags) && added == old(added)
      ensures old(evFlags) != flags && e.del ==> evFlags == flags && added == e.add
    {
      if evFlags == flags {
        return true;
      }
      if !e.del {
        return false;
      }
      evFlags := flags;
      added := e.add;
      ok := e.add;
    }

    /** The event is set up for this interest.  It is in the loop if it was before, or if it had to be set up
        anew. */
    ghost predicate Rearmed(flags: Interest, evFlags0: Interest, added0: bool)
      reads this`evFlags, this`added
    {
      evFlags == flags && (added <==> added0 || evFlags0 != flags)
    }

    // ----- Termination -----

    /** Requests that may still be taken on. */
    static function Budget(nreqs: int): nat {
      if nreqs >= 0 then nreqs + 1 else 0
    }

    /** Within one request the states are passed in this order. */
    function Rank(): nat
      reads this`state, this`unsent
    {
      match state
      case Read => 9
      case ParseCmd => 8
      case Nread => 7
      case Swallow => 6
      case NewCmd => if unsent > 0 then 5 else 2
      case IoQueue => 4
      case Mwrite => 3
      case Write => 3
      case Waiting => 1
      case _ => 0
    }

    /** The work left within a state. */
    function Inner(): nat
      reads this`state, this`rlbytes, this`sbytes, this`unsent
    {
      match state
      case Nread => Max(rlbytes, 0)
      case Swallow => Max(sbytes, 0)
      case Mwrite => unsent
      case Write => unsent
      case _ => 0
    }

    // ----- The states -----

    method DoWaiting() returns (stop: bool)
      requires Valid() && state == Waiting
      modifies this`state, this`evFlags, this`added, this`clock
      ensures Valid() && clock == old(clock) + 1
      ensures stop <==> old(evFlags) == Readable || (script(old(clock)).del && script(old(clock)).add)
      ensures if stop then state == Read && Rearmed(Readable, old(evFlags), old(added)) else state == Closing
    {
      var e := Next();
      stop := UpdateEvent(Readable, e);
      state := if stop then Read else Closing;
    }

    /** Running out of memory while reading drops what was read and answers with an error. */
    method DoRead()
      requires Valid() && state == Read
      modifies this`state, this`rbytes, this`unsent, this`closeAfterWrite, this`clock
      ensures Valid() && state in {Waiting, ParseCmd, Closing, NewCmd}
      ensures var e := script(old(clock));
        && (state == Closing <==> !e.ok || e.result == -1)
        && (state == Waiting <==> e.ok && e.result == 0)
        && (state == ParseCmd <==> e.ok && e.result > 0)
        && rbytes == (if state == ParseCmd then old(rbytes) + e.result else if state == NewCmd then 0 else old(rbytes))
        && unsent == (if state == NewCmd then old(unsent) + e.responses else old(unsent))
        && closeAfterWrite == (old(closeAfterWrite) || state == NewCmd)
    {
      var e := Next();
      if !e.ok {
        state := Closing;
      } else if e.result == 0 {
        state := Waiting;
      } else if e.result > 0 {
        rbytes := rbytes + e.result;
        state := ParseCmd;
      } else if e.result == -1 {
        state := Closing;
      } else {
        rbytes := 0;
        unsent := unsent + e.responses;
        closeAfterWrite := true;
        state := NewCmd;
      }
    }

    /** What a command left behind: input used up, a value to read or to swallow, responses, side IO. */
    ghost predicate Left(e: Event, rbytes0: nat, unsent0: nat, close0: bool)
      reads this
    {
      && rbytes == (if e.consumed <= rbytes0 then rbytes0 - e.consumed else 0)
      && rlbytes == e.rlbytes && sbytes == e.sbytes && unsent == unsent0 + e.responses && stack == e.queued
      && closeAfterWrite == (close0 || e.closeAfterWrite)
    }

    /** Takes over what a command left behind. */
    method Executed(e: Event)
      requires Valid() && out == {}
      modifies this`rbytes, this`rlbytes, this`sbytes, this`unsent, this`stack, this`closeAfterWrite
      ensures Valid() && Left(e, old(rbytes), old(unsent), old(closeAfterWrite))
      ensures rbytes == if e.consumed <= old(rbytes) then old(rbytes) - e.consumed else 0
      ensures rlbytes == e.rlbytes && sbytes == e.sbytes && unsent == old(unsent) + e.responses && stack == e.queued
      ensures closeAfterWrite == (old(closeAfterWrite) || e.closeAfterWrite)
    {
      rbytes := if e.consumed <= rbytes then rbytes - e.consumed else 0;
      rlbytes, sbytes := e.rlbytes, e.sbytes;
      unsent := unsent + e.responses;
      stack := e.queued;
      if e.closeAfterWrite {
        closeAfterWrite := true;
      }
    }

    method DoParseCmd()
      requires Valid() && state == ParseCmd
      modifies this`state, this`rbytes, this`rlbytes, this`sbytes, this`unsent, this`stack, this`closeAfterWrite,
               this`clock
      ensures Valid() && state in {Waiting, Mwrite, NewCmd, Nread, Swallow, Closing, Watch}
      ensures var e := script(old(clock));
        if e.result == 0 then
          && state == (if unsent > 0 then Mwrite else Waiting)
          && rbytes == old(rbytes) && unsent == old(unsent)
          && stack == old(stack) && closeAfterWrite == old(closeAfterWrite)
        else state == e.parsed && Left(e, old(rbytes), old(unsent), old(closeAfterWrite))
    {
      var e := Next();
      assert WellBehaved(e);
      if e.result == 0 {
        state := if unsent > 0 then Mwrite else Waiting;
      } else {
        Executed(e);
        state := e.parsed;
      }
    }

    method ResetCmdHandler()
      requires Valid() && out == {}
      modifies this`state, this`log
      ensures Valid() && log == old(log) + [Reset] && Resets(log) == Resets(old(log)) + 1
      ensures state == if rbytes > 0 then ParseCmd else if unsent > 0 then Mwrite else Waiting
    {
      Note(Reset);
      if rbytes > 0 {
        state := ParseCmd;
      } else if unsent > 0 {
        state := Mwrite;
      } else {
        state := Waiting;
      }
    }

    /** Takes on a request while the budget lasts; after that flushes the responses and yields, with an event
        that is sure to come when there is input left to work on. */
    method DoNewCmd(nreqs: int) returns (stop: bool)
      requires Valid() && state == NewCmd
      modifies this`state, this`evFlags, this`added, this`clock, this`log
      ensures Valid() && old(log) <= log
      ensures if nreqs >= 0 then !stop && log == old(log) + [Reset] && Resets(log) == Resets(old(log)) + 1
              else log == old(log)
      ensures nreqs >= 0 ==> state in {ParseCmd, Mwrite, Waiting}
      ensures nreqs < 0 && unsent > 0 ==> state == Mwrite && !stop
      ensures nreqs < 0 && unsent == 0 ==> state == if stop then NewCmd else Closing
      ensures stop && rbytes > 0 ==> Rearmed(Writable, old(evFlags), old(added))
      ensures state != Closing && (!stop || rbytes == 0) ==> evFlags == old(evFlags) && added == old(added)
    {
      stop := false;
      if nreqs >= 0 {
        ResetCmdHandler();
      } else if unsent > 0 {
        state := Mwrite;
      } else {
        if rbytes > 0 {
          var e := Next();
          var ok := UpdateEvent(Writable, e);
          if !ok {
            state := Closing;
            return;
          }
        }
        stop := true;
      }
    }

    /** A read that brought nothing: the end of the stream and errors close the connection, otherwise it waits
        for input. */
    method WaitOrClose(e: Event) returns (stop: bool)
      requires Valid() && state in {Nread, Swallow}
      modifies this`state, this`evFlags, this`added
      ensures Valid() && (stop <==> e.result == -1 && (old(evFlags) == Readable || (e.del && e.add)))
      ensures if stop then state == old(state) && Rearmed(Readable, old(evFlags), old(added)) else state == Closing
    {
      stop := false;
      if e.result == -1 {
        stop := UpdateEvent(Readable, e);
      }
      if !stop {
        state := Closing;
      }
    }

    /** Part of the value arrives. */
    method Arrive(n: nat)
      requires rlbytes >= n
      modifies this`rbytes, this`rlbytes
      ensures rlbytes == old(rlbytes) - n && rbytes == if n < old(rbytes) then old(rbytes) - n else 0
    {
      rlbytes := rlbytes - n;
      rbytes := if n < rbytes then rbytes - n else 0;
    }

    /** The whole read of a value that is still incomplete: some or all of it arrives, or some of it and then the
        memory runs out, the socket would block, or the connection ends. */
    method ReadValue(e: Event) returns (stop: bool)
      requires Valid() && state == Nread && rlbytes > 0
      modifies this`state, this`rbytes, this`rlbytes, this`sbytes, this`unsent, this`evFlags, this`added
      ensures Valid() && state in {Nread, Swallow, Closing}
      ensures e.result > 0 ==>
                !stop && state == Nread && rlbytes == if e.result < old(rlbytes) then old(rlbytes) - e.result else 0
      ensures e.result == -2 ==>
                && !stop && state == Swallow && sbytes == rlbytes && unsent == old(unsent) + e.responses
                && rlbytes == if e.before < old(rlbytes) then old(rlbytes) - e.before else 0
      ensures e.result <= 0 && e.result != -2 ==>
                rlbytes == if e.before < old(rlbytes) then old(rlbytes) - e.before else 1
      ensures var n := old(rlbytes) - rlbytes; old(rbytes) - rbytes == if n < old(rbytes) then n else old(rbytes)
      ensures e.result <= 0 && e.result != -2 ==>
                && (stop <==> e.result == -1 && (old(evFlags) == Readable || (e.del && e.add)))
                && state == if stop then Nread else Closing
      ensures if stop then Rearmed(Readable, old(evFlags), old(added))
              else state == Closing || (evFlags == old(evFlags) && added == old(added))
    {
      stop := false;
      if e.result > 0 {
        Arrive(Min(e.result, rlbytes));
      } else if e.result == -2 {
        Arrive(Min(e.before, rlbytes));
        unsent := unsent + e.responses;
        sbytes := rlbytes;
        state := Swallow;
      } else {
        Arrive(Min(e.before, rlbytes - 1));
        stop := WaitOrClose(e);
      }
    }

    method DoNread() returns (stop: bool)
      requires Valid() && state == Nread
      modifies this`state, this`rbytes, this`rlbytes, this`sbytes, this`unsent, this`stack, this`closeAfterWrite,
               this`evFlags, this`added, this`clock
      ensures Valid() && (stop ==> state == Nread && Rearmed(Readable, old(evFlags), old(added)))
      ensures !stop ==> state == Closing || (evFlags == old(evFlags) && added == old(added))
      ensures state in {Nread, NewCmd, Swallow, Mwrite, Closing}
      ensures !stop && state == Nread ==> 0 <= rlbytes < old(rlbytes)
      ensures var e := script(old(clock));
        if old(rlbytes) == 0 then
          !stop && state == e.completed && Left(e, old(rbytes), old(unsent), old(closeAfterWrite))
        else if old(rlbytes) < 0 then !stop && state == Closing
        else if e.result > 0 then
          !stop && state == Nread && rlbytes == if e.result < old(rlbytes) then old(rlbytes) - e.result else 0
        else if e.result == -2 then
          && !stop && state == Swallow && unsent == old(unsent) + e.responses
          && sbytes == if e.before < old(rlbytes) then old(rlbytes) - e.before else 0
        else
          && rlbytes == (if e.before < old(rlbytes) then old(rlbytes) - e.before else 1)
          && (stop <==> e.result == -1 && (old(evFlags) == Readable || (e.del && e.add)))
          && state == if stop then Nread else Closing
    {
      stop := false;
      var e := Next();
      assert WellBehaved(e);
      if rlbytes == 0 {
        Executed(e);
        state := e.completed;
      } else if rlbytes < 0 {
        state := Closing;
      } else {
        stop := ReadValue(e);
      }
    }

    method DoSwallow() returns (stop: bool)
      requires Valid() && state == Swallow
      modifies this`state, this`rbytes, this`sbytes, this`evFlags, this`added, this`clock
      ensures Valid() && (stop ==> state == Swallow && Rearmed(Readable, old(evFlags), old(added)))
      ensures !stop ==> state == Closing || (evFlags == old(evFlags) && added == old(added))
      ensures state in {Swallow, NewCmd, Closing}
      ensures !stop && state == Swallow ==> 0 <= sbytes < old(sbytes)
      ensures state == NewCmd <==> old(sbytes) <= 0
      ensures old(sbytes) > 0 && old(rbytes) > 0 ==>
                && !stop && state == Swallow && old(rbytes) - rbytes == old(sbytes) - sbytes
                && sbytes == if old(rbytes) < old(sbytes) then old(sbytes) - old(rbytes) else 0
      ensures old(sbytes) > 0 && old(rbytes) == 0 ==> var e := script(old(clock));
                if e.result > 0 then
                  !stop && state == Swallow && sbytes == if e.result < old(sbytes) then old(sbytes) - e.result else 0
                else
                  && sbytes == old(sbytes)
                  && (stop <==> e.result == -1 && (old(evFlags) == Readable || (e.del && e.add)))
                  && state == if stop then Swallow else Closing
    {
      stop := false;
      if sbytes <= 0 {
        state := NewCmd;
        return;
      }
      if rbytes > 0 {
        var tocopy := if rbytes > sbytes then sbytes else rbytes;
        sbytes := sbytes - tocopy;
        rbytes := rbytes - tocopy;
        return;
      }
      var e := Next();
      if e.result > 0 {
        sbytes := sbytes - if e.result < sbytes then e.result else sbytes;
      } else {
        stop := WaitOrClose(e);
      }
    }

    /** The queues with pending IO. */
    static ghost function Queued(stack: seq<bool>): set<nat> {
      set j: nat | j < |stack| && stack[j]
    }

    /** Hands every queue with pending IO to its side thread.  The callback takes the stack of the queue. */
    method SubmitQueues()
      requires submitted == 0 && out == {}
      modifies this`stack, this`submitted, this`out
      ensures |stack| == |old(stack)| && forall j :: 0 <= j < |stack| ==> !stack[j]
      ensures submitted == |out| && out == Queued(old(stack))
      ensures forall j: nat :: j in out <==> j < |old(stack)| && old(stack)[j]
    {
      var q := 0;
      while q < |stack|
        invariant q <= |stack| == |old(stack)|
        invariant forall j :: 0 <= j < q ==> !stack[j]
        invariant forall j :: q <= j < |stack| ==> stack[j] == old(stack)[j]
        invariant submitted == |out| && out == set j: nat | j < q && old(stack)[j]
      {
        if stack[q] {
          stack := stack[q := false];
          submitted := submitted + 1;
          out := out + {q};
        }
        q := q + 1;
      }
    }

    /** Sending.  Complete: the next command, or the end of a connection that was to be closed then.  Incomplete: less
        to send.  Blocked: waiting to write.  Anything else closes. */
    method DoTransmit(e: Event) returns (stop: bool)
      requires Valid() && state in {Write, Mwrite} && out == {} && e.sent != 0
      modifies this`state, this`unsent, this`evFlags, this`added, this`log
      ensures Valid() && log == old(log) + [Transmit(0)] && Resets(log) == Resets(old(log))
      ensures if e.sent >= old(unsent) || old(unsent) == 0 then
                && !stop && unsent == 0
                && state == if old(state) == Mwrite && !closeAfterWrite then NewCmd else Closing
              else if e.sent >= 0 then
                !stop && state == old(state) && unsent == old(unsent) - e.sent
              else
                && unsent == old(unsent)
                && (stop <==> e.sent == -1 && (old(evFlags) == Writable || (e.del && e.add)))
                && (if stop then state == old(state) && Rearmed(Writable, old(evFlags), old(added))
                    else state == Closing)
      ensures !stop ==> state == Closing || (evFlags == old(evFlags) && added == old(added))
    {
      stop := false;
      Note(Transmit(submitted));
      if e.sent >= unsent || unsent == 0 {
        unsent := 0;
        if state == Mwrite {
          state := NewCmd;
          if closeAfterWrite {
            state := Closing;
          }
        } else {
          state := Closing;
        }
      } else if e.sent >= 0 {
        unsent := unsent - e.sent;
      } else if e.sent == -1 {
        stop := UpdateEvent(Writable, e);
        if !stop {
          state := Closing;
        }
      } else {
        state := Closing;
      }
    }

    /** Side IO first; without it, sending. */
    method DoMwrite() returns (stop: bool)
      requires Valid() && state in {Write, Mwrite}
      modifies this`state, this`unsent, this`evFlags, this`added, this`stack, this`submitted
      modifies this`out, this`clock, this`log
      ensures Valid() && out == Queued(old(stack)) && forall j :: 0 <= j < |stack| ==> !stack[j]
      ensures if out != {} then
                stop && state == IoQueue && !added && log == old(log) && unsent == old(unsent)
              else
                && log == old(log) + [Transmit(0)] && Resets(log) == Resets(old(log))
                && (!stop ==> state == Closing || (evFlags == old(evFlags) && added == old(added)))
                && WellBehaved(script(old(clock)))
                && var e := script(old(clock));
                if e.sent >= old(unsent) || old(unsent) == 0 then
                  && !stop && unsent == 0
                  && state == if old(state) == Mwrite && !closeAfterWrite then NewCmd else Closing
                else if e.sent >= 0 then
                  !stop && state == old(state) && unsent == old(unsent) - e.sent
                else
                  && unsent == old(unsent)
                  && (stop <==> e.sent == -1 && (old(evFlags) == Writable || (e.del && e.add)))
                  && (if stop then state == old(state) && Rearmed(Writable, old(evFlags), old(added))
                    else state == Closing)
    {
      SubmitQueues();
      if submitted != 0 {
        state := IoQueue;
        added := false;
        return true;
      }
      var e := Next();
      assert WellBehaved(e) && out == {};
      stop := DoTransmit(e);
    }

    /** The event loop knows what it knew before. */
    twostate predicate SameEvent()
      reads this
    {
      evFlags == old(evFlags) && added == old(added)
    }

    /** The measure of the machine has gone down. */
    twostate predicate Closer(nreqs: int, left: int)
      reads this
    {
      Budget(left) < Budget(nreqs) ||
      (Budget(left) == Budget(nreqs) &&
        (Rank() < old(Rank()) || (Rank() == old(Rank()) && Inner() < old(Inner()))))
    }

    /** A turn in one of the states that read. */
    method TurnReading() returns (stop: bool)
      requires Valid() && state in {Waiting, Read, ParseCmd, Nread, Swallow}
      modifies this`clock, this`state, this`rbytes, this`rlbytes, this`sbytes, this`unsent, this`closeAfterWrite,
               this`evFlags, this`added, this`stack
      ensures Valid() && state !in {Closed, IoQueue}
      ensures stop ==> Parked() && Waits() && Rearmed(Readable, old(evFlags), old(added))
      ensures !stop ==> Closer(0, 0) && (state == Closing || SameEvent())
    {
      stop := false;
      if state == Waiting {
        stop := DoWaiting();
      } else if state == Read {
        DoRead();
      } else if state == ParseCmd {
        DoParseCmd();
      } else if state == Nread {
        stop := DoNread();
      } else {
        stop := DoSwallow();
      }
    }

    /** A turn in one of the states that write. */
    method TurnWriting() returns (stop: bool)
      requires Valid() && state in {Write, Mwrite}
      modifies this`state, this`unsent, this`evFlags, this`added, this`stack, this`submitted, this`out, this`clock,
               this`log
      ensures Valid() && (log == old(log) || log == old(log) + [Transmit(0)]) && Resets(log) == Resets(old(log))
      ensures state != Closed && (!stop ==> state != IoQueue)
      ensures stop ==> Parked() && (Waits() ==> Rearmed(Writable, old(evFlags), old(added)))
      ensures !stop ==> Closer(0, 0) && (state == Closing || SameEvent())
    {
      stop := DoMwrite();
    }

    /** A turn in one of the other states. */
    method TurnOther(nreqs: int) returns (stop: bool)
      requires Valid() && state in {NewCmd, Closing, Closed, Watch, IoQueue} && (state == IoQueue ==> out == {})
      modifies this`state, this`evFlags, this`added, this`clock, this`log
      ensures Valid() && (log == old(log) || log == old(log) + [Reset])
      ensures Resets(log) == Resets(old(log)) + if old(state) == NewCmd && nreqs >= 0 then 1 else 0
      ensures (state == Closed ==> stop) && (old(state) == Closing ==> state == Closed)
      ensures state != IoQueue && (old(state) == IoQueue ==> state == Mwrite && !stop)
      ensures old(state) in {Closed, Watch} ==> stop && state == old(state)
      ensures stop ==> Parked() && (Waits() ==> Rearmed(evFlags, old(evFlags), old(added)))
      ensures !stop ==> state == Closing || SameEvent()
      ensures !stop ==> Closer(if old(state) == NewCmd then nreqs + 1 else nreqs, nreqs)
    {
      stop := false;
      match state {
        case NewCmd => stop := DoNewCmd(nreqs);
        case Closing =>
          state := Closed;
          added := false;
          stop := true;
        case IoQueue => state := Mwrite;
        case _ => stop := true;
      }
    }

    /** The state's own work. */
    method TurnState(nreqs: int) returns (stop: bool)
      requires Valid() && (state == IoQueue ==> out == {})
      modifies this`clock, this`state, this`rbytes, this`rlbytes, this`sbytes, this`unsent, this`closeAfterWrite,
               this`evFlags, this`added, this`stack, this`submitted, this`out, this`log
      ensures Valid() && (log == old(log) || log == old(log) + [Reset] || log == old(log) + [Transmit(0)])
      ensures Resets(log) == Resets(old(log)) + if old(state) == NewCmd && nreqs >= 0 then 1 else 0
      ensures stop ==> Parked() && (Waits() ==> Rearmed(evFlags, old(evFlags), old(added)))
      ensures old(state) == Closing ==> state == Closed
      ensures !stop ==> state !in {Closed, IoQueue} && (state == Closing || SameEvent())
      ensures !stop ==> Closer(if old(state) == NewCmd then nreqs + 1 else nreqs, nreqs)
    {
      if state in {Waiting, Read, ParseCmd, Nread, Swallow} {
        stop := TurnReading();
      } else if state in {Write, Mwrite} {
        stop := TurnWriting();
      } else {
        stop := TurnOther(nreqs);
      }
    }

    /** One turn of the machine. */
    method Turn(nreqs: int) returns (stop: bool, left: int)
      requires Valid() && (state == IoQueue ==> out == {})
      modifies this`clock, this`state, this`rbytes, this`rlbytes, this`sbytes, this`unsent, this`closeAfterWrite,
               this`evFlags, this`added, this`stack, this`submitted, this`out, this`log
      ensures Valid() && |log| > |old(log)| && old(log) <= log && log[|old(log)|] == Dispatch(old(state))
      ensures ClosedOnlyFirst(log, |old(log)|)
      ensures left == (if old(state) == NewCmd then nreqs - 1 else nreqs)
      ensures Resets(log) == Resets(old(log)) + if old(state) == NewCmd && left >= 0 then 1 else 0
      ensures stop ==> Parked() && (Waits() ==> Rearmed(evFlags, old(evFlags), old(added)))
      ensures old(state) == Closing ==> state == Closed
      ensures !stop ==> state !in {Closed, IoQueue} && Closer(nreqs, left) && (state == Closing || SameEvent())
    {
      left := if state == NewCmd then nreqs - 1 else nreqs;
      Note(Dispatch(state));
      stop := TurnState(left);
    }

    /** There is something to wait for. */
    predicate Waits()
      reads this`state
    {
      Awaits(state)
    }

    /** What the outside can tell of a connection. */
    function Look(): View
      reads this`state, this`out, this`added, this`evFlags
    {
      View(state, out, added, evFlags)
    }

    /** How a connection can be left: what it waits for is what its event is set up for. */
    ghost predicate Parked()
      reads this
    {
      && state in {Read, NewCmd, Nread, Swallow, Write, Mwrite, Closed, Watch, IoQueue}
      && (state in {Read, Nread, Swallow} ==> evFlags == Readable)
      && (state in {Write, Mwrite} ==> evFlags == Writable)
      && (state == NewCmd && rbytes > 0 ==> evFlags == Writable)
      && (state == NewCmd ==> unsent == 0)
      && (state == IoQueue ==> out != {} && !added)
    }

    /** Runs the machine until it has to wait.  The event that it waits for is then in the event loop if and only
        if the event was there before, or it had to be set up anew. */
    method Drive(reqsPerEvent: int)
      requires Valid() && (state == IoQueue ==> out == {})
      modifies this`clock, this`state, this`rbytes, this`rlbytes, this`sbytes, this`unsent, this`closeAfterWrite,
               this`evFlags, this`added, this`stack, this`submitted, this`out, this`log
      ensures Valid() && Parked() && old(log) <= log
      ensures Waits() ==> (added <==> old(added) || evFlags != old(evFlags))
      ensures ClosedOnlyFirst(log, |old(log)|)
      ensures log[|old(log)|..] != [] && log[|old(log)|] == Dispatch(old(state))
      ensures Resets(log) <= Resets(old(log)) + Max(reqsPerEvent, 0)
    {
      var nreqs, stop := reqsPerEvent, false;
      while !stop
        invariant Valid() && old(log) <= log && (log == old(log) ==> state == old(state) && !stop && SameEvent())
        invariant log != old(log) ==> |log| > |old(log)| && log[|old(log)|] == Dispatch(old(state))
        invariant log != old(log) && !stop ==> state !in {Closed, IoQueue}
        invariant ClosedOnlyFirst(log, |old(log)|)
        invariant nreqs <= reqsPerEvent && (!stop && state == IoQueue ==> out == {})
        invariant Resets(log) <= Resets(old(log)) + Max(reqsPerEvent, 0) - Max(nreqs, 0)
        invariant if stop then Parked() && (Waits() ==> Rearmed(evFlags, old(evFlags), old(added)))
                  else state == Closing || SameEvent()
        decreases !stop, Budget(nreqs), Rank(), Inner()
      {
        stop, nreqs := Turn(nreqs);
      }
    }

    /** The event of the connection is reported.  It was in the loop, so whatever the connection waits for
        afterwards, NewCmd included, will be reported too. */
    method EventHandler(reqsPerEvent: int)
      requires Valid() && added && state != Closed
      modifies this`clock, this`state, this`rbytes, this`rlbytes, this`sbytes, this`unsent, this`closeAfterWrite,
               this`evFlags, this`added, this`stack, this`submitted, this`out, this`log
      ensures Valid() && Parked() && old(log) <= log && ClosedOnlyFirst(log, |old(log)|)
      ensures Waits() ==> added
      ensures Resets(log) <= Resets(old(log)) + Max(reqsPerEvent, 0)
    {
      Drive(reqsPerEvent);
    }

    /** A side thread brings the connection back, from queue q if side IO was under way.  Only the last queue
        sets the machine in motion.  When event_add fails, ev_flags claim what is not so: the connection is
        heard of again if and only if it comes to wait for something else than input. */
    method ConnWorkerReadd(q: nat, reqsPerEvent: int, add: bool)
      requires Valid() && (state == IoQueue ==> q in out) && state != Closed
      modifies this`clock, this`state, this`rbytes, this`rlbytes, this`sbytes, this`unsent, this`closeAfterWrite,
               this`evFlags, this`added, this`stack, this`submitted, this`out, this`log
      ensures Valid() && old(log) <= log
      ensures old(state) == IoQueue && old(out) != {q} ==>
                out == old(out) - {q} && submitted > 0 && state == IoQueue && log == old(log) && !added && SameEvent()
      ensures (old(state) == IoQueue && old(out) == {q}) || old(state) == Closing ==>
                && Parked() && |log| > |old(log)| && log[|old(log)|] == Dispatch(old(state))
                && (Waits() ==> (added <==> add || evFlags == Writable))
      ensures old(state) !in {IoQueue, Closing} ==>
                state == NewCmd && log == old(log) && out == {} && evFlags == Readable && added == add
    {
      if state == IoQueue {
        submitted := submitted - 1;
        out := out - {q};
        if submitted != 0 {
          return;
        }
      }
      evFlags := Readable;
      added := add;
      if state == Closing || state == IoQueue {
        Drive(reqsPerEvent);
      } else {
        state := NewCmd;
      }
    }

    /** Something happens outside.  An event that is not in the loop is not reported. */
    method React(o: Outside, reqsPerEvent: int)
      requires Valid()
      modifies this`clock, this`state, this`rbytes, this`rlbytes, this`sbytes, this`unsent, this`closeAfterWrite,
               this`evFlags, this`added, this`stack, this`submitted, this`out, this`log
      ensures Valid() && Reacts(old(Look()), o, Look())
      ensures Unmoved(old(Look()), o) ==> log == old(log)
      ensures (o.Fires? && old(added)) || Resumes(old(Look()), o) ==> Parked()
    {
      match o
      case Fires =>
        if added { EventHandler(reqsPerEvent); }
      case Returns(q, add) =>
        if q in out { ConnWorkerReadd(q, reqsPerEvent, add); }
    }

    /** Any life of a connection: events and queues coming back, in any order.  The count of submitted queues
        is the number of queues that are out; while one is, no event is reported; nothing was ever transmitted
        while one was.  `trace` is the connection before each of the n happenings, and after the last one.  When
        it waits in the end, its event is in the loop if and only if it was heard of after the last re-add; so it
        always is when every event_add succeeded. */
    method Life(outside: nat -> Outside, n: nat, reqsPerEvent: int) returns (ghost trace: seq<View>)
      requires Valid() && log == [] && added
      modifies this`clock, this`state, this`rbytes, this`rlbytes, this`sbytes, this`unsent, this`closeAfterWrite,
               this`evFlags, this`added, this`stack, this`submitted, this`out, this`log
      ensures Valid() && submitted == |out| && (out != {} ==> state == IoQueue && !added)
      ensures forall i :: 0 <= i < |log| && log[i].Transmit? ==> log[i].outstanding == 0
      ensures |trace| == n + 1 && trace[0] == old(Look()) && trace[n] == Look() && History(trace, outside)
      ensures Waits() ==> (added <==> Heard(trace, outside, n))
      ensures Waits() && (forall i :: 0 <= i < n && outside(i).Returns? ==> outside(i).add) ==> added
    {
      trace := [Look()];
      for i := 0 to n
        invariant Valid() && |trace| == i + 1 && trace[0] == old(Look()) && trace[i] == Look()
        invariant History(trace, outside)
      {
        React(outside(i), reqsPerEvent);
        HistorySnoc(trace, outside, Look());
        trace := trace + [Look()];
      }
      RegisteredIff(trace, outside, n);
      if forall i :: 0 <= i < n && outside(i).Returns? ==> outside(i).add { AllHeard(trace, outside, n); }
    }

    /** A connection that waits outside of the event loop waits for good. */
    method Hung(outside: nat -> Outside, n: nat, reqsPerEvent: int)
      requires Valid() && !added && out == {}
      modifies this`clock, this`state, this`rbytes, this`rlbytes, this`sbytes, this`unsent, this`closeAfterWrite,
               this`evFlags, this`added, this`stack, this`submitted, this`out, this`log
      ensures log == old(log) && state == old(state) && !added
    {
      for i := 0 to n
        invariant Valid() && !added && out == {} && log == old(log) && state == old(state)
      {
        React(outside(i), reqsPerEvent);
      }
    }
  }

  // ----- Lives -----

  /** What reaches a connection from outside: its event, if that is in the event loop, and IO queue q, whose
      re-add of the event succeeds or not. */
  datatype Outside = Fires | Returns(q: nat, add: bool)

  datatype View = View(state: State, out: set<nat>, added: bool, evFlags: Interest)

  predicate Awaits(state: State) {
    state in {Read, NewCmd, Nread, Swallow, Write, Mwrite, Watch}
  }

  /** The last queue comes back: event_add is called, and the machine goes on. */
  predicate Resumes(v: View, o: Outside) {
    o.Returns? && v.out == {o.q}
  }

  /** Nothing reaches the connection. */
  predicate Unmoved(v: View, o: Outside) {
    if o.Fires? then !v.added else o.q !in v.out
  }

  /** What a happening can make of a connection. */
  predicate Reacts(v: View, o: Outside, v': View) {
    if Unmoved(v, o) then v' == v
    else if o.Returns? && !Resumes(v, o) then v' == v.(out := v.out - {o.q}) && v.state == IoQueue && !v.added
    else if !Awaits(v'.state) then !v'.added
    else v'.added <==> o.Fires? || o.add || v'.evFlags == Writable
  }

  /** A life, happening by happening. */
  ghost predicate History(trace: seq<View>, outside: nat -> Outside) {
    forall i {:trigger trace[i]} :: 0 <= i < |trace| - 1 ==> Reacts(trace[i], outside(i), trace[i + 1])
  }

  lemma HistorySnoc(trace: seq<View>, outside: nat -> Outside, v: View)
    requires trace != [] && History(trace, outside) && Reacts(trace[|trace| - 1], outside(|trace| - 1), v)
    ensures History(trace + [v], outside)
  {
    var t := trace + [v];
    forall i | 0 <= i < |t| - 1 ensures Reacts(t[i], outside(i), t[i + 1]) {
      assert t[i] == trace[i];
      if i < |trace| - 1 { assert t[i + 1] == trace[i + 1]; }
    }
  }

  /** The last time that a side thread added the event again, that succeeded, or the connection came to wait for
      room to write, which sets the event up anew.  True if there was no such time. */
  ghost predicate Heard(trace: seq<View>, outside: nat -> Outside, n: nat)
    requires n < |trace|
  {
    n == 0 ||
    if Resumes(trace[n - 1], outside(n - 1)) then outside(n - 1).add || trace[n].evFlags == Writable
    else Heard(trace, outside, n - 1)
  }

  /** Over any life that begins with a registered event, a waiting connection is registered exactly when it was
      heard. */
  lemma {:induction false} RegisteredIff(trace: seq<View>, outside: nat -> Outside, n: nat)
    requires n < |trace| && History(trace, outside) && trace[0].added
    ensures trace[n].added ==> Heard(trace, outside, n)
    ensures Awaits(trace[n].state) ==> (trace[n].added <==> Heard(trace, outside, n))
  {
    if n > 0 {
      RegisteredIff(trace, outside, n - 1);
      assert Reacts(trace[n - 1], outside(n - 1), trace[n]);
    }
  }

  lemma {:induction false} AllHeard(trace: seq<View>, outside: nat -> Outside, n: nat)
    requires n < |trace| && forall i :: 0 <= i < n && outside(i).Returns? ==> outside(i).add
    ensures Heard(trace, outside, n)
  {
    if n > 0 { AllHeard(trace, outside, n - 1); }
  }

  function Max(a: int, b: int): int { if a > b then a else b }

  function Min(a: int, b: int): int { if a < b then a else b }

  lemma MaxMin(a: int, b: int)
    ensures Min(a, b) <= a && Min(a, b) <= b && Min(a, b) in {a, b}
    ensures a <= Max(a, b) && b <= Max(a, b) && Max(a, b) in {a, b}
  {
  }
}
