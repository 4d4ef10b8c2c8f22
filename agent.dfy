// The DockerJupyterAgent object: its message memory, its `todo` cursor and
// the state of the Docker Jupyter server it owns. `_act` and `run` change
// these in place; each method is proved to do exactly what the functions
// of AgentSpec say, and the lemmas there state what that means.

module Agent {
  import opened Types
  import opened Actions
  import opened AgentSpec

  class DockerJupyterAgent {
    /** `rc.memory`: append-only. */
    var memory: seq<Message>
    /** `rc.todo`: the action the next `_act` runs. */
    var todo: Action
    /** Whether the owned server is up. */
    var server: ServerState
    /** Every call made on the server and the role, in order. */
    ghost var events: seq<Event>

    /** A fresh agent: empty memory, cursor on the first declared action,
        server not started. */
    constructor ()
      ensures memory == [] && todo == Declared[0] && server == Stopped && events == []
    {
      memory := [];
      todo := Declared[0];
      server := Stopped;
      events := [];
    }

    /** `start_server()`: `ok` is whether the server's own `start()` returns;
        when it raises, the exception is re-raised. */
    method StartServer(ok: bool) returns (st: Result<ServerState>)
      modifies this
      ensures st == if ok then Ok(Running) else Err(StartRaised)
      ensures server == if ok then Running else old(server)
      ensures events == old(events) + [StartCalled]
      ensures memory == old(memory) && todo == old(todo)
    {
      events := events + [StartCalled];
      if ok {
        server := Running;
        st := Ok(Running);
      } else {
        st := Err(StartRaised);
      }
    }

    /** `stop_server()`: `ok` is whether the server's own `stop()` returns;
        when it raises, the exception is re-raised, not swallowed. */
    method StopServer(ok: bool) returns (st: Result<ServerState>)
      modifies this
      ensures st == if ok then Ok(Stopped) else Err(StopRaised)
      ensures server == if ok then Stopped else old(server)
      ensures events == old(events) + [StopCalled]
      ensures memory == old(memory) && todo == old(todo)
    {
      events := events + [StopCalled];
      if ok {
        server := Stopped;
        st := Ok(Stopped);
      } else {
        st := Err(StopRaised);
      }
    }

    /** `_observe(msg)`: the incoming message joins the memory. */
    method Observe(msg: Message)
      modifies this
      ensures memory == old(memory) + [msg]
      ensures events == old(events) + [Observed]
      ensures todo == old(todo) && server == old(server)
    {
      memory := memory + [msg];
      events := events + [Observed];
    }

    /** `_act()`: run the action under the cursor; on success append exactly
        one message to memory and return it, on failure raise and leave the
        memory as it was. */
    method Act(scan: Scanner, complete: Completion, executors: map<string, Executor>)
      returns (r: Result<Message>)
      modifies this
      ensures r == Step(old(memory), todo, scan, complete, executors)
      ensures memory == if r.Ok? then old(memory) + [r.value] else old(memory)
      ensures events == old(events) + [ActRan(todo)]
      ensures todo == old(todo) && server == old(server)
    {
      events := events + [ActRan(todo)];
      var msg: Message;
      if todo.GenerateCode? {
        if |memory| == 0 {
          return Err(EmptyMemory);
        }
        var last := memory[|memory| - 1];
        var blocks := Extract(scan, [last]);
        if blocks == [] {
          return Err(NoCodeBlockInMessage);
        }
        var language := blocks[0].language;
        var code := Actions.GenerateCode(last.content, language, complete);
        if code.Err? {
          return Err(code.error);
        }
        msg := Message(code.value, Profile, CauseOf(todo));
      } else {
        var blocks := Extract(scan, memory);
        if blocks == [] {
          return Err(NoCodeBlockInMessages);
        }
        var language := blocks[0].language;
        var result := Actions.ExecuteCode(blocks, language, executors);
        if result.Err? {
          return Err(result.error);
        }
        msg := Message(result.value.output, Profile, CauseOf(todo));
      }
      memory := memory + [msg];
      r := Ok(msg);
    }

    /** The `async for msg in self.react()` loop of `run`: run up to
        `cycles` reaction cycles, each pointing the cursor at the next
        declared action, running `_act` and adding its message to memory
        once more; stop at the first message after which `isContinue` says
        stop, and raise when the cycles run out first. */
    method React(cycles: nat, scan: Scanner, complete: Completion, executors: map<string, Executor>,
                 isContinue: ContinueCheck)
      returns (body: Result<Message>)
      modifies this
      ensures Reaction(body, memory, todo, events)
              == Cycles(old(memory), old(todo), old(events), 0, cycles, ActWith(scan, complete, executors), isContinue)
      ensures server == old(server)
    {
      ghost var step := ActWith(scan, complete, executors);
      ghost var R := Cycles(memory, todo, events, 0, cycles, step, isContinue);
      var k := 0;
      var done := false;
      body := Err(StopConditionNotMet);
      while k < cycles && !done
        invariant k <= cycles
        invariant server == old(server)
        invariant !done ==> Cycles(memory, todo, events, k, cycles, step, isContinue) == R
        invariant !done ==> body == Err(StopConditionNotMet)
        invariant done ==> Reaction(body, memory, todo, events) == R
        decreases cycles - k, if done then 0 else 1
      {
        CyclesUnroll(memory, todo, events, k, cycles, step, isContinue);
        todo := Declared[k % |Declared|];
        var out := Act(scan, complete, executors);
        if out.Err? {
          body := out;
          done := true;
        } else {
          memory := memory + [out.value];
          if !isContinue(k, memory) {
            body := out;
            done := true;
          } else {
            k := k + 1;
          }
        }
      }
    }

    /** `run(msg)`: start the server, observe the message, run the reaction
        cycles, and stop the server in `finally`, on every path. `startOk`
        and `stopOk` say whether the server's start and stop return; a
        failing stop replaces the body's result. */
    method Run(msg: Message, startOk: bool, stopOk: bool, cycles: nat,
               scan: Scanner, complete: Completion, executors: map<string, Executor>,
               isContinue: ContinueCheck)
      returns (r: Result<Message>)
      modifies this
      ensures var S := Session(old(memory), old(todo), old(events), msg, startOk, stopOk, cycles,
                               ActWith(scan, complete, executors), isContinue);
              r == S.outcome && memory == S.memory && todo == S.todo && events == S.events
      ensures server == if stopOk then Stopped else if startOk then Running else old(server)
    {
      var body: Result<Message>;
      var started := StartServer(startOk);
      if started.Err? {
        body := Err(started.error);
      } else {
        Observe(msg);
        body := React(cycles, scan, complete, executors, isContinue);
      }
      var stopped := StopServer(stopOk);
      r := if stopped.Err? then Err(stopped.error) else body;
    }
  }
}
