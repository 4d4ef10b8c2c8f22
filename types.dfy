// The values that flow through one DockerJupyterAgent session: messages,
// code blocks, execution results, the two action tags and the errors that
// the Python code raises as exceptions.

module Types {

  /** The two actions, in the order the constructor registers them. */
  datatype Action = GenerateCode | ExecuteCode

  /** Registration order of the actions (`set_actions([generate_code, execute_code])`);
      the "by_order" react mode runs them round-robin in this order. */
  const Declared: seq<Action> := [GenerateCode, ExecuteCode]

  /** What a message's `cause_by` records. `MethodType` is the value the code
      actually stores (`type(todo)` of a bound method is the same for both
      actions); `By(a)` names the action that produced the message. */
  datatype Cause = UserRequirement | MethodType | By(action: Action)

  datatype Message = Message(content: string, role: string, causeBy: Cause)

  /** A fenced block found by the markdown extractor. */
  datatype CodeBlock = CodeBlock(code: string, language: string)

  /** The part of an `IPythonCodeResult` the agent uses, plus its exit code. */
  datatype ExecResult = ExecResult(output: string, exitCode: int)

  /** The outcome of a call into code outside the model: it returns a value
      or it raises. */
  datatype Reply<T> = Returned(value: T) | Raised

  /** The exceptions the agent raises or lets through. */
  datatype Error =
    | EmptyMemory                  // get_memories(k=1)[0] on an empty memory
    | NoCodeBlockInMessage         // GenerateCode found no block in the last message
    | NoCodeBlockInMessages        // ExecuteCode found no block in the whole memory
    | UnsupportedLanguage(language: string)
    | MissingExecutorRegistry      // `self.jupyter_code_executors` was never assigned
    | CompletionRaised
    | ExecutorRaised
    | StartRaised
    | StopRaised
    | StopConditionNotMet          // the reaction cycles ran out without a stop

  datatype Result<T> = Ok(value: T) | Err(error: Error)

  datatype Option<T> = None | Some(value: T)

  /** Calls made on the agent and its server, in the order they happen. */
  datatype Event = StartCalled | Observed | ActRan(action: Action) | StopCalled

  datatype ServerState = Stopped | Running

  /** Role profile, used as the `role` of every message the agent produces. */
  const Profile: string :=
    "A Docker Jupyter agent that can create and execute code in a Jupyter notebook environment."

  /** Number of occurrences of `e` in `events`. */
  function Count(events: seq<Event>, e: Event): (n: nat)
    ensures n <= |events|
    ensures n == 0 <==> e !in events
  {
    if events == [] then 0
    else (if events[0] == e then 1 else 0) + Count(events[1..], e)
  }

  lemma {:induction false} CountConcat(a: seq<Event>, b: seq<Event>, e: Event)
    ensures Count(a + b, e) == Count(a, e) + Count(b, e)
  {
    if a == [] {
      assert a + b == b;
    } else {
      assert (a + b)[1..] == a[1..] + b;
      CountConcat(a[1..], b, e);
    }
  }
}
