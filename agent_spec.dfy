// What one `_act` step, the reaction cycles of `run` and a whole `run`
// session do, as functions of the agent's state and of the collaborators'
// answers. The class in agent.dfy is proved to behave exactly so.

module AgentSpec {
  import opened Types
  import opened CodeParser
  import opened Actions

  /** `_is_continue()` after a cycle: the library decides from its internal
      state; the model lets it see the cycle number and the memory. */
  type ContinueCheck = (nat, seq<Message>) -> bool

  /** The exceptions a single `_act` step can raise. */
  predicate IsStepError(e: Error)
  {
    e.EmptyMemory? || e.NoCodeBlockInMessage? || e.NoCodeBlockInMessages? ||
    e.UnsupportedLanguage? || e.CompletionRaised? || e.ExecutorRaised?
  }

  /** One `_act` call with the cursor at `todo` on `memory`: the message it
      appends and returns, or the exception it raises. */
  function Step(memory: seq<Message>, todo: Action, scan: Scanner, complete: Completion,
                executors: map<string, Executor>): (r: Result<Message>)
    ensures r.Ok? ==> r.value.role == Profile && r.value.causeBy == CauseOf(todo)
    ensures r.Err? ==> IsStepError(r.error)
  {
    if todo.GenerateCode? then
      if |memory| == 0 then Err(EmptyMemory)
      else
        var last := memory[|memory| - 1];
        var blocks := Extract(scan, [last]);
        if blocks == [] then Err(NoCodeBlockInMessage)
        else match Actions.GenerateCode(last.content, blocks[0].language, complete)
          case Err(e) => Err(e)
          case Ok(code) => Ok(Message(code, Profile, CauseOf(todo)))
    else
      var blocks := Extract(scan, memory);
      if blocks == [] then Err(NoCodeBlockInMessages)
      else match Actions.ExecuteCode(blocks, blocks[0].language, executors)
        case Err(e) => Err(e)
        case Ok(result) => Ok(Message(result.output, Profile, CauseOf(todo)))
  }

  /** GenerateCode reads only the last memory entry: what came before it
      has no influence on the outcome. */
  lemma GenerateStepReadsLastOnly(before1: seq<Message>, before2: seq<Message>, last: Message,
                                  scan: Scanner, complete: Completion, executors: map<string, Executor>)
    ensures Step(before1 + [last], Action.GenerateCode, scan, complete, executors)
         == Step(before2 + [last], Action.GenerateCode, scan, complete, executors)
  {
    assert (before1 + [last])[|before1|] == last;
    assert (before2 + [last])[|before2|] == last;
  }

  /** GenerateCode's outcome: with a block in the last entry it asks the
      completion service under the first block's language and returns the
      parsed reply; without one it raises before asking. */
  lemma GenerateStepOutcome(memory: seq<Message>, scan: Scanner, complete: Completion,
                            executors: map<string, Executor>)
    requires |memory| > 0
    ensures var last := memory[|memory| - 1];
            var blocks := scan(last.content);
            var r := Step(memory, Action.GenerateCode, scan, complete, executors);
            (blocks == [] ==> r == Err(NoCodeBlockInMessage)) &&
            (blocks != [] ==>
              var reply := complete(Prompt(last.content, blocks[0].language));
              (reply.Raised? ==> r == Err(CompletionRaised)) &&
              (reply.Returned? ==> r.Ok? && r.value.content == ParseCode(reply.value, blocks[0].language)))
  {
    var last := memory[|memory| - 1];
    assert [last][1..] == [];
    assert Extract(scan, [last]) == scan(last.content);
  }

  /** GenerateCode on an empty memory: `get_memories(k=1)[0]` raises. */
  lemma GenerateStepEmptyMemory(scan: Scanner, complete: Completion, executors: map<string, Executor>)
    ensures Step([], Action.GenerateCode, scan, complete, executors) == Err(EmptyMemory)
  {
  }

  /** ExecuteCode with no block anywhere in the memory raises, whatever the
      executors would have done. */
  lemma ExecuteStepNoBlock(memory: seq<Message>, scan: Scanner, complete: Completion,
                           executors: map<string, Executor>)
    requires forall i :: 0 <= i < |memory| ==> scan(memory[i].content) == []
    ensures Step(memory, Action.ExecuteCode, scan, complete, executors) == Err(NoCodeBlockInMessages)
  {
  }

  /** ExecuteCode hands the executor registered for the first block's
      language every block of the memory, in memory order; an unregistered
      language raises without running anything. `history` is the part of
      the memory that already holds a block, `later` what came after. */
  lemma ExecuteStepOutcome(history: seq<Message>, later: seq<Message>, scan: Scanner,
                           complete: Completion, executors: map<string, Executor>)
    requires Extract(scan, history) != []
    ensures var language := Extract(scan, history)[0].language;
            var blocks := Extract(scan, history) + Extract(scan, later);
            var r := Step(history + later, Action.ExecuteCode, scan, complete, executors);
            (language !in executors ==> r == Err(UnsupportedLanguage(language))) &&
            (language in executors ==>
              (r.Ok? <==> executors[language](blocks).Returned?) &&
              (r.Ok? ==> r.value.content == executors[language](blocks).value.output))
  {
    FirstBlockStable(scan, history, later);
    ExtractConcat(scan, history, later);
  }

  /** The state a sequence of reaction cycles leaves behind. */
  datatype Reaction = Reaction(outcome: Result<Message>, memory: seq<Message>, todo: Action, events: seq<Event>)

  /** One `_act` call as a function of the memory and the cursor. */
  type StepFn = (seq<Message>, Action) -> Result<Message>

  /** `_act` with the given collaborators. */
  function ActWith(scan: Scanner, complete: Completion, executors: map<string, Executor>): StepFn
  {
    (memory: seq<Message>, todo: Action) => Step(memory, todo, scan, complete, executors)
  }

  /** A step function that raises only what `_act` raises. */
  ghost predicate RaisesStepErrors(step: StepFn)
  {
    forall memory, todo :: step(memory, todo).Err? ==> IsStepError(step(memory, todo).error)
  }

  lemma ActWithRaisesStepErrors(scan: Scanner, complete: Completion, executors: map<string, Executor>)
    ensures RaisesStepErrors(ActWith(scan, complete, executors))
  {
  }

  /** Reaction cycles `k`, `k + 1`, ... up to `n` (the number `react()`
      yields). Each cycle points the cursor at the next action in
      declaration order and runs `_act`; `run` then adds the returned
      message to memory a second time and returns it if the continuation
      check says stop. When the cycles run out, `run` raises. */
  function Cycles(memory: seq<Message>, todo: Action, events: seq<Event>, k: nat, n: nat,
                  step: StepFn, isContinue: ContinueCheck): (R: Reaction)
    decreases n - k
    ensures |events| <= |R.events| && |memory| <= |R.memory|
  {
    if k >= n then Reaction(Err(StopConditionNotMet), memory, todo, events)
    else
      var action := Declared[k % |Declared|];
      var logged := events + [ActRan(action)];
      match step(memory, action)
      case Err(e) => Reaction(Err(e), memory, action, logged)
      case Ok(m) =>
        var added := memory + [m] + [m];
        if !isContinue(k, added) then Reaction(Ok(m), added, action, logged)
        else Cycles(added, action, logged, k + 1, n, step, isContinue)
  }

  /** One cycle of `Cycles`, unrolled: what the cycles do after the first
      one's step has returned or raised. */
  lemma CyclesUnroll(memory: seq<Message>, todo: Action, events: seq<Event>, k: nat, n: nat,
                     step: StepFn, isContinue: ContinueCheck)
    requires k < n
    ensures var action := Declared[k % |Declared|];
            var logged := events + [ActRan(action)];
            var r := step(memory, action);
            var R := Cycles(memory, todo, events, k, n, step, isContinue);
            (r.Err? ==> R == Reaction(r, memory, action, logged)) &&
            (r.Ok? && !isContinue(k, memory + [r.value] + [r.value]) ==>
               R == Reaction(r, memory + [r.value] + [r.value], action, logged)) &&
            (r.Ok? && isContinue(k, memory + [r.value] + [r.value]) ==>
               R == Cycles(memory + [r.value] + [r.value], action, logged, k + 1, n, step, isContinue))
  {
  }

  /** The continuation check said "go on" after cycle `i` (cycles counted
      from `k`, each adding two entries to the memory `start`). */
  ghost predicate ContinuedAt(isContinue: ContinueCheck, start: seq<Message>, k: nat, final: seq<Message>, i: nat)
    requires k <= i
  {
    |start| + 2 * (i - k + 1) <= |final| && isContinue(i, final[..|start| + 2 * (i - k + 1)])
  }

  /** The checks said "go on" from cycle `k + 1` on a memory that starts
      with `added`, and after cycle `k` itself, which left `added`: then they
      said "go on" from cycle `k` on the memory before it. */
  lemma ContinuedShift(isContinue: ContinueCheck, memory: seq<Message>, added: seq<Message>, k: nat, next: nat,
                       final: seq<Message>, j: nat)
    requires next == k + 1
    requires |added| == |memory| + 2 && |added| <= |final| && final[..|added|] == added
    requires isContinue(k, added)
    requires forall i :: next <= i < j ==> ContinuedAt(isContinue, added, next, final, i)
    ensures forall i :: k <= i < j ==> ContinuedAt(isContinue, memory, k, final, i)
  {
    forall i | k <= i < j
      ensures ContinuedAt(isContinue, memory, k, final, i)
    {
      if i > k {
        assert ContinuedAt(isContinue, added, next, final, i);
      }
    }
  }

  /** The cycles only append: memory and event log keep their prefix, the
      log gains one ActRan per cycle run, in declaration order, and never
      more cycles than `react()` yields. */
  lemma {:induction false} CyclesAppendOnly(memory: seq<Message>, todo: Action, events: seq<Event>, k: nat, n: nat,
                                            step: StepFn, isContinue: ContinueCheck)
    requires k <= n
    decreases n - k
    ensures var R := Cycles(memory, todo, events, k, n, step, isContinue);
            |memory| <= |R.memory| && R.memory[..|memory|] == memory &&
            |events| <= |R.events| && R.events[..|events|] == events &&
            k + (|R.events| - |events|) <= n &&
            (k < n ==> |events| < |R.events|) &&
            (forall t :: |events| <= t < |R.events| ==>
               R.events[t] == ActRan(Declared[(k + t - |events|) % |Declared|]))
  {
    if k < n {
      var action := Declared[k % |Declared|];
      var logged := events + [ActRan(action)];
      var r := step(memory, action);
      if r.Ok? {
        var added := memory + [r.value] + [r.value];
        if isContinue(k, added) {
          CyclesAppendOnly(added, action, logged, k + 1, n, step, isContinue);
          var R := Cycles(added, action, logged, k + 1, n, step, isContinue);
          assert R.memory[..|memory|] == R.memory[..|added|][..|memory|];
          assert R.events[..|events|] == R.events[..|logged|][..|events|];
          forall t | |events| <= t < |R.events|
            ensures R.events[t] == ActRan(Declared[(k + t - |events|) % |Declared|])
          {
            if t == |events| {
              assert R.events[t] == R.events[..|logged|][t];
            } else {
              assert (k + 1 + t - |logged|) == k + t - |events|;
            }
          }
        }
      }
    }
  }

  /** `run` returns the message of the FIRST cycle whose continuation check
      says stop: every earlier cycle said "go on", the returned message is
      the last entry of memory (added twice: once by `_act`, once by `run`). */
  lemma {:induction false} CyclesStopAtFirst(memory: seq<Message>, todo: Action, events: seq<Event>, k: nat, n: nat,
                                             step: StepFn, isContinue: ContinueCheck)
    requires k <= n
    decreases n - k
    ensures var R := Cycles(memory, todo, events, k, n, step, isContinue);
            var ran := |R.events| - |events|;
            R.outcome.Ok? ==>
              |events| < |R.events| && k + ran <= n &&
              |R.memory| == |memory| + 2 * ran &&
              R.memory[|R.memory| - 1] == R.outcome.value && R.memory[|R.memory| - 2] == R.outcome.value &&
              !isContinue(k + ran - 1, R.memory) &&
              forall i :: k <= i < k + ran - 1 ==> ContinuedAt(isContinue, memory, k, R.memory, i)
  {
    CyclesAppendOnly(memory, todo, events, k, n, step, isContinue);
    if k < n {
      var action := Declared[k % |Declared|];
      var logged := events + [ActRan(action)];
      var r := step(memory, action);
      if r.Ok? {
        var added := memory + [r.value] + [r.value];
        if isContinue(k, added) {
          CyclesStopAtFirst(added, action, logged, k + 1, n, step, isContinue);
          CyclesAppendOnly(added, action, logged, k + 1, n, step, isContinue);
          var R := Cycles(added, action, logged, k + 1, n, step, isContinue);
          if R.outcome.Ok? {
            ContinuedShift(isContinue, memory, added, k, k + 1, R.memory, k + (|R.events| - |events|) - 1);
          }
        }
      }
    }
  }

  /** StopConditionNotMet arises only when all cycles ran and every check
      said "go on"; any other end is a returned message or an exception of
      the step itself. */
  lemma {:induction false} CyclesRunOut(memory: seq<Message>, todo: Action, events: seq<Event>, k: nat, n: nat,
                                        step: StepFn, isContinue: ContinueCheck)
    requires k <= n
    requires RaisesStepErrors(step)
    decreases n - k
    ensures var R := Cycles(memory, todo, events, k, n, step, isContinue);
            (R.outcome.Err? ==> R.outcome.error == StopConditionNotMet || IsStepError(R.outcome.error)) &&
            (R.outcome == Err(StopConditionNotMet) ==>
              |R.events| - |events| == n - k && |R.memory| == |memory| + 2 * (n - k) &&
              forall i :: k <= i < n ==> ContinuedAt(isContinue, memory, k, R.memory, i))
  {
    if k < n {
      var action := Declared[k % |Declared|];
      var logged := events + [ActRan(action)];
      var r := step(memory, action);
      if r.Ok? {
        var added := memory + [r.value] + [r.value];
        if isContinue(k, added) {
          CyclesRunOut(added, action, logged, k + 1, n, step, isContinue);
          CyclesAppendOnly(added, action, logged, k + 1, n, step, isContinue);
          var R := Cycles(added, action, logged, k + 1, n, step, isContinue);
          if R.outcome == Err(StopConditionNotMet) {
            ContinuedShift(isContinue, memory, added, k, k + 1, R.memory, n);
          }
        }
      }
    }
  }

  /** `run(msg)`: start the server, observe the message, run the cycles,
      and stop the server in `finally`. A failing stop replaces whatever
      the body returned or raised. */
  function Session(memory: seq<Message>, todo: Action, events: seq<Event>, msg: Message,
                   startOk: bool, stopOk: bool, n: nat, step: StepFn, isContinue: ContinueCheck): (R: Reaction)
    ensures |events| + 2 <= |R.events| && R.events[|R.events| - 1] == StopCalled
    ensures !stopOk ==> R.outcome == Err(StopRaised)
    ensures !startOk ==> R.memory == memory && R.events == events + [StartCalled, StopCalled]
  {
    var started := events + [StartCalled];
    var body :=
      if !startOk then Reaction(Err(StartRaised), memory, todo, started)
      else Cycles(memory + [msg], todo, started + [Observed], 0, n, step, isContinue);
    Reaction(if stopOk then body.outcome else Err(StopRaised), body.memory, body.todo, body.events + [StopCalled])
  }

  /** The session bracket: the server is started once, first; the message is
      observed right after a successful start and before any action; a
      failed start runs no action and observes nothing; and the server is
      stopped exactly once, last, on every path. */
  lemma SessionBracket(memory: seq<Message>, todo: Action, events: seq<Event>, msg: Message,
                       startOk: bool, stopOk: bool, n: nat, step: StepFn, isContinue: ContinueCheck)
    ensures var S := Session(memory, todo, events, msg, startOk, stopOk, n, step, isContinue);
            |events| + 2 <= |S.events| && S.events[..|events|] == events &&
            var E := S.events[|events|..];
            E[0] == StartCalled && E[|E| - 1] == StopCalled &&
            Count(E, StartCalled) == 1 && Count(E, StopCalled) == 1 &&
            (startOk ==> E[1] == Observed && Count(E, Observed) == 1) &&
            (!startOk ==> E == [StartCalled, StopCalled] && S.memory == memory)
  {
    var S := Session(memory, todo, events, msg, startOk, stopOk, n, step, isContinue);
    if startOk {
      var acts := SessionActions(memory, todo, events, msg, stopOk, n, step, isContinue);
      BracketCounts(acts);
    } else {
      assert S.events == events + [StartCalled, StopCalled];
      assert S.events[|events|..] == [StartCalled, StopCalled];
    }
  }

  /** After a successful start, the session's log is the start, the
      observation, the actions, and the stop. */
  lemma SessionActions(memory: seq<Message>, todo: Action, events: seq<Event>, msg: Message,
                       stopOk: bool, n: nat, step: StepFn, isContinue: ContinueCheck)
    returns (acts: seq<Event>)
    ensures forall t :: 0 <= t < |acts| ==> acts[t].ActRan?
    ensures Session(memory, todo, events, msg, true, stopOk, n, step, isContinue).events
            == events + ([StartCalled, Observed] + acts + [StopCalled])
  {
    var prefix := events + [StartCalled] + [Observed];
    CyclesAppendOnly(memory + [msg], todo, prefix, 0, n, step, isContinue);
    var R := Cycles(memory + [msg], todo, prefix, 0, n, step, isContinue);
    acts := R.events[|prefix|..];
    assert R.events == prefix + acts;
    forall t | 0 <= t < |acts| ensures acts[t].ActRan? {
      assert acts[t] == R.events[|prefix| + t];
    }
  }

  /** Between a start and a stop, a log of actions adds no lifecycle event. */
  lemma BracketCounts(acts: seq<Event>)
    requires forall t :: 0 <= t < |acts| ==> acts[t].ActRan?
    ensures var E := [StartCalled, Observed] + acts + [StopCalled];
            Count(E, StartCalled) == 1 && Count(E, StopCalled) == 1 && Count(E, Observed) == 1
  {
    assert Count(acts, StartCalled) == 0 && Count(acts, StopCalled) == 0 && Count(acts, Observed) == 0;
    var E := [StartCalled, Observed] + acts + [StopCalled];
    CountConcat([StartCalled, Observed] + acts, [StopCalled], StartCalled);
    CountConcat([StartCalled, Observed] + acts, [StopCalled], StopCalled);
    CountConcat([StartCalled, Observed] + acts, [StopCalled], Observed);
    CountConcat([StartCalled, Observed], acts, StartCalled);
    CountConcat([StartCalled, Observed], acts, StopCalled);
    CountConcat([StartCalled, Observed], acts, Observed);
  }

  /** How a session ends: a failing stop always wins; otherwise a failing
      start; a returned message means both succeeded, the message is the
      memory's last entry and the check said stop after its cycle, every
      earlier cycle having said "go on"; StopConditionNotMet means all `n`
      cycles ran and said "go on"; any other exception is the step's own. */
  lemma SessionOutcome(memory: seq<Message>, todo: Action, events: seq<Event>, msg: Message,
                       startOk: bool, stopOk: bool, n: nat, step: StepFn, isContinue: ContinueCheck)
    requires RaisesStepErrors(step)
    ensures var S := Session(memory, todo, events, msg, startOk, stopOk, n, step, isContinue);
            (!stopOk ==> S.outcome == Err(StopRaised)) &&
            (stopOk && !startOk ==> S.outcome == Err(StartRaised)) &&
            (S.outcome.Ok? ==>
               startOk && stopOk &&
               exists ran :: 1 <= ran <= n && |S.memory| == |memory| + 1 + 2 * ran &&
                 S.memory[|S.memory| - 1] == S.outcome.value &&
                 !isContinue(ran - 1, S.memory) &&
                 forall i :: 0 <= i < ran - 1 ==> ContinuedAt(isContinue, memory + [msg], 0, S.memory, i)) &&
            (S.outcome == Err(StopConditionNotMet) ==>
               startOk && stopOk && |S.memory| == |memory| + 1 + 2 * n &&
               forall i :: 0 <= i < n ==> ContinuedAt(isContinue, memory + [msg], 0, S.memory, i)) &&
            (startOk && stopOk && S.outcome.Err? ==>
               S.outcome.error == StopConditionNotMet || IsStepError(S.outcome.error))
  {
    if startOk {
      var prefix := events + [StartCalled] + [Observed];
      CyclesStopAtFirst(memory + [msg], todo, prefix, 0, n, step, isContinue);
      CyclesRunOut(memory + [msg], todo, prefix, 0, n, step, isContinue);
    }
  }

  /** A continuation check that never says stop makes `run` raise; it never
      returns a message. */
  lemma SessionNeverSilent(memory: seq<Message>, todo: Action, events: seq<Event>, msg: Message,
                           startOk: bool, stopOk: bool, n: nat, step: StepFn, isContinue: ContinueCheck)
    requires RaisesStepErrors(step)
    requires forall i, m :: isContinue(i, m)
    ensures Session(memory, todo, events, msg, startOk, stopOk, n, step, isContinue).outcome.Err?
  {
    SessionOutcome(memory, todo, events, msg, startOk, stopOk, n, step, isContinue);
  }
}
