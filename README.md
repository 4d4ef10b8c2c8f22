# DockerJupyterAgent, modelled in Dafny

This project models the core of `DockerJupyterAgent`, a MetaGPT role that
turns an instruction into code and runs it in a Jupyter kernel inside a
Docker container. Three parts are modelled:

- **`_parse_code`** (module `CodeParser`). It pulls the code out of a
  completion reply. The regex ```` ```{language}(.*?)``` ```` (DOTALL) is
  modelled as a literal search. `IsSearchMatch` states what `re.search`
  reports: the leftmost opening fence, then the shortest capture.
- **The two actions and `_act`** (modules `Actions` and `AgentSpec`, and the
  class `Agent.DockerJupyterAgent`).
  - GenerateCode reads the last memory entry and takes the language of its
    first code block. It prompts the completion service and parses the
    reply.
  - ExecuteCode extracts every block of the whole memory, in order. It hands
    them to the executor registered for the first block's language.
  - A successful step appends exactly one message to the memory.
- **The `run` bracket.** It starts the server, observes the incoming
  message and runs the reaction cycles. It returns the first message after
  which the continuation check says stop. When the cycles run out, it
  raises. The server is stopped in `finally` on every path.

Python exceptions become `Result<T> = Ok | Err(Error)`. The outside
collaborators come in as function parameters:

- the per-message block scanner (`Scanner`);
- the language model (`Completion`);
- the kernel executors (`map<string, Executor>`);
- the continuation check (`ContinueCheck`);
- whether the server's `start()` and `stop()` return (`startOk`, `stopOk`).

Calls on the agent are recorded in a ghost event log. That log makes "the
server is started once, first, and stopped once, last" a statement that can
be proved. `AgentSpec` holds the functions (`Step`, `Cycles`, `Session`) and
the lemmas about them. The class methods `Act`, `React` and `Run` are proved
to produce exactly what those functions say.

In these places the model follows the code:

- `stop_server` re-raises a failing stop (lines 130-135). A failure there
  replaces the body's result, even a returned message. It is not swallowed.
- The prompt is the text on lines 58-62, character for character.
- `rc.memory.add` is taken to append unconditionally. Under that reading,
  each cycle's message goes into memory twice: once in `_act` (line 95) and
  once in `run` (line 103). See "## Left out".

## Model

| member | source | states |
|---|---|---|
| CodeParser.FindFrom | DockerJupyterCodeExecutorAgent.py:115 | returns the first position at or after `from` where the pattern occurs, and None exactly when it occurs nowhere after `from` |
| CodeParser.ParseCode | DockerJupyterCodeExecutorAgent.py:113-121 | when the pattern matches, returns the text captured by the leftmost-start, shortest-capture match; otherwise returns the reply unchanged |
| CodeParser.IsSearchMatch | DockerJupyterCodeExecutorAgent.py:115 | the match `re.search` picks (leftmost start, then shortest capture) lies inside the reply, with its closing fence after the end of the opening |
| CodeParser.NoMatchAfterFirstOpening | DockerJupyterCodeExecutorAgent.py:114-115 | if the leftmost opening fence has no closing fence after it, the pattern matches nowhere in the reply |
| CodeParser.SearchMatchUnique | DockerJupyterCodeExecutorAgent.py:115 | the match `re.search` reports is unique |
| CodeParser.ParseCodeMatch | DockerJupyterCodeExecutorAgent.py:114-117 | given the search match, the result is exactly the text between that opening fence and the nearest closing fence after it |
| CodeParser.CaptureHasNoFence | DockerJupyterCodeExecutorAgent.py:114 | the non-greedy capture holds no closing fence |
| CodeParser.ParseCodeCapture | DockerJupyterCodeExecutorAgent.py:114-117 | in the match case the result holds no fence, is a substring of the reply, and is shorter than the reply by at least both fences and the tag |
| CodeParser.ParseCodeFallback | DockerJupyterCodeExecutorAgent.py:118-121 | if no opening fence tagged with the language has a later closing fence, the reply is returned unchanged (it never fails) |
| CodeParser.ParseCodeSingleBlock | DockerJupyterCodeExecutorAgent.py:114-117 | a reply that is one fenced block yields its inner text with no fence markers, and keeps the newlines next to the fences |
| CodeParser.ParseCodeKeepsTagSuffix | DockerJupyterCodeExecutorAgent.py:114 | the tag is matched as a prefix: a block tagged `python3` matches `python`, and `3` stays at the front of the result |
| Types.Count | DockerJupyterCodeExecutorAgent.py:98-111 | counts occurrences of an event in the log; zero exactly when the event is absent |
| Types.CountConcat | DockerJupyterCodeExecutorAgent.py:98-111 | counting distributes over concatenation of logs |
| Actions.Extract | DockerJupyterCodeExecutorAgent.py:81 | the extracted block list is empty exactly when no message holds a block |
| Actions.ExtractConcat | DockerJupyterCodeExecutorAgent.py:88 | extraction preserves order: the blocks of `a + b` are the blocks of `a` followed by those of `b` |
| Actions.FirstBlockStable | DockerJupyterCodeExecutorAgent.py:88-91 | messages appended after a history that holds a block do not change the first block, so the chosen language stays the same |
| Actions.Prompt | DockerJupyterCodeExecutorAgent.py:58-62 | the prompt, verbatim, carries the language, the instruction and the opening fence the parser later searches for, each right after its fixed piece of template text |
| Actions.GenerateCode | DockerJupyterCodeExecutorAgent.py:56-68 | raises exactly when the completion call raises; otherwise returns the parsed reply |
| Actions.GenerateCodeFencedReply | DockerJupyterCodeExecutorAgent.py:63-65 | a reply that is one fenced block of the language yields exactly the code inside it |
| Actions.GenerateCodeUnfencedReply | DockerJupyterCodeExecutorAgent.py:63-65 | a reply with no fence tagged with the language comes back unchanged |
| Actions.ExecuteCode | DockerJupyterCodeExecutorAgent.py:70-73 | a language with no registered executor raises UnsupportedLanguage and runs nothing; otherwise the result is that executor's result on the blocks |
| Actions.ExecuteCodeAsWritten | DockerJupyterCodeExecutorAgent.py:43 | with the registry attribute never assigned, the call raises; with a registry it behaves as `ExecuteCode` |
| Actions.ExecuteCodeAsWrittenRaises | DockerJupyterCodeExecutorAgent.py:71 | as constructed, a python block with a working python executor still raises, where the intended lookup returns the output |
| Actions.CauseAsWritten | DockerJupyterCodeExecutorAgent.py:86 | the recorded `cause_by` never names the action that ran |
| Actions.CauseAsWrittenCollides | DockerJupyterCodeExecutorAgent.py:93 | as written, GenerateCode and ExecuteCode messages carry the same `cause_by` |
| Actions.CauseOf | DockerJupyterCodeExecutorAgent.py:86 | the corrected `cause_by` names the action that produced the message |
| Actions.CauseOfDistinguishes | DockerJupyterCodeExecutorAgent.py:93 | the corrected `cause_by` tells the two actions apart |
| AgentSpec.Step | DockerJupyterCodeExecutorAgent.py:75-96 | a successful step's message has the role's profile as role and the action as cause; a failing step raises only `_act`'s own exceptions |
| AgentSpec.GenerateStepReadsLastOnly | DockerJupyterCodeExecutorAgent.py:80 | earlier memory entries have no influence on GenerateCode's outcome |
| AgentSpec.GenerateStepOutcome | DockerJupyterCodeExecutorAgent.py:79-86 | no block in the last entry raises before the completion service is asked; otherwise the language is the first block's and the content is the parsed reply |
| AgentSpec.GenerateStepEmptyMemory | DockerJupyterCodeExecutorAgent.py:80 | GenerateCode on an empty memory raises (the index `[0]` fails) |
| AgentSpec.ExecuteStepNoBlock | DockerJupyterCodeExecutorAgent.py:88-90 | no block anywhere in memory raises NoCodeBlockInMessages, whatever the executors are |
| AgentSpec.ExecuteStepOutcome | DockerJupyterCodeExecutorAgent.py:87-93 | the executor of the first block's language gets every block of memory in order; an unregistered language raises; the message content is the executor's output |
| AgentSpec.ActWithRaisesStepErrors | DockerJupyterCodeExecutorAgent.py:75-96 | `_act` with any collaborators raises only its own step exceptions |
| AgentSpec.Cycles | DockerJupyterCodeExecutorAgent.py:102-106 | the reaction loop: the memory and the log only grow; its order, first-stop and run-out behaviour are stated by the lemmas below |
| AgentSpec.CyclesUnroll | DockerJupyterCodeExecutorAgent.py:102-105 | one cycle runs the next declared action: a raise ends the loop, a stop returns the message, and "go on" runs the next cycle on memory with the message added twice |
| AgentSpec.CyclesAppendOnly | DockerJupyterCodeExecutorAgent.py:102-106 | memory and log only grow by appending; one action runs per cycle in declaration order (lines 50-51); never more cycles than `react()` yields |
| AgentSpec.CyclesStopAtFirst | DockerJupyterCodeExecutorAgent.py:102-105 | a returned message comes from the first cycle whose check says stop; every earlier check said "go on"; the message is the last two memory entries |
| AgentSpec.CyclesRunOut | DockerJupyterCodeExecutorAgent.py:102-106 | StopConditionNotMet arises only when every cycle ran and every check said "go on"; any other exception is the step's own |
| AgentSpec.Session | DockerJupyterCodeExecutorAgent.py:98-111 | `run`: stop is the last call on every path; a failing stop replaces the outcome; a failing start leaves the memory alone and logs only the start and the stop |
| AgentSpec.SessionBracket | DockerJupyterCodeExecutorAgent.py:98-111 | start is called once, first; observe comes right after a successful start and before any action; a failed start runs no action; stop is called exactly once, last, on every path |
| AgentSpec.SessionActions | DockerJupyterCodeExecutorAgent.py:99-111 | after a successful start the log is start, observe, the actions, stop |
| AgentSpec.BracketCounts | DockerJupyterCodeExecutorAgent.py:110-111 | start, observe and stop each occur once in a bracket around actions |
| AgentSpec.SessionOutcome | DockerJupyterCodeExecutorAgent.py:98-111 | a failing stop always wins; then a failing start; a returned message means the check said stop after its cycle; StopConditionNotMet means all cycles said "go on" |
| AgentSpec.SessionNeverSilent | DockerJupyterCodeExecutorAgent.py:106 | a check that never says stop makes `run` raise, never return |
| Agent.DockerJupyterAgent.constructor | DockerJupyterCodeExecutorAgent.py:19-54 | empty memory, cursor on the first declared action, server stopped, empty log |
| Agent.DockerJupyterAgent.StartServer | DockerJupyterCodeExecutorAgent.py:123-128 | logs the start call; on success the server runs; a failing start is re-raised as StartRaised |
| Agent.DockerJupyterAgent.StopServer | DockerJupyterCodeExecutorAgent.py:130-135 | logs the stop call; on success the server is stopped; a failing stop is re-raised as StopRaised |
| Agent.DockerJupyterAgent.Observe | DockerJupyterCodeExecutorAgent.py:101 | the incoming message is appended to memory |
| Agent.DockerJupyterAgent.Act | DockerJupyterCodeExecutorAgent.py:75-96 | result equals `Step` on the old memory; on success memory is the old memory plus exactly that message; otherwise memory is unchanged; cursor and server unchanged |
| Agent.DockerJupyterAgent.React | DockerJupyterCodeExecutorAgent.py:102-106 | outcome, memory, cursor and log equal `Cycles` from the old state |
| Agent.DockerJupyterAgent.Run | DockerJupyterCodeExecutorAgent.py:98-111 | outcome, memory, cursor and log equal `Session` from the old state; the server is stopped after a successful stop |

## Left out

- Docker container management, the Jupyter kernel transport and the fields
  of `IPythonCodeResult` other than `output` are foreign libraries. Each
  executor is a function that returns a result or raises.
- The internals of `MarkdownCodeExtractor` are not modelled. The model
  scans each message with an abstract deterministic function and
  concatenates the results in memory order. That is the order-preserving
  contract, and it also makes repeated extraction give identical results.
- The language-model call `_aask` is not modelled. It is a deterministic
  function from prompt to reply or raise. Retries and non-determinism are
  not modelled.
- The MetaGPT `Role` machinery is not part of this model: `react()`,
  "by_order" scheduling, `_observe`, `_is_continue`, `rc.reason` and how
  `set_actions` wraps plain methods. It is replaced as follows:
  - the number of cycles `react()` yields is a parameter;
  - each cycle runs the declared actions round-robin;
  - `_observe` appends the incoming message to memory;
  - the continuation check is a function of the cycle number and the memory.
- AgentSpec.Cycles: StopConditionNotMet carries no reason text, because
  `rc.reason` lives in the library.
- `rc.memory.add` is modelled as an unconditional append. MetaGPT's
  `Memory.add` is library code and is not part of this model. If it skips a
  message it already stores, line 103 adds nothing. Then each cycle adds one
  entry rather than two, and ExecuteCode sees each block once rather than
  twice. The memory-length clauses of AgentSpec.CyclesStopAtFirst,
  AgentSpec.CyclesRunOut and AgentSpec.SessionOutcome rest on this reading.
- Exception messages (the `ValueError` texts) are not modelled; only the
  kind of each error is kept. Logging is left out.
- asyncio and await, the constructor's configuration plumbing (lines 19-54),
  and `main`/`asyncio.run` (lines 137-144) are left out. They are I/O,
  concurrency and demo code.
- Full regex semantics are not modelled. A language tag that contains regex
  metacharacters is interpolated unescaped on line 114. The model assumes
  there are none and treats the tag as literal text.
- Timeouts of remote execution are not modelled separately. A timeout is
  whatever result the executor reports.

## Findings

| source | as written | input that shows it | evidently intended | confidence | as-written member | corrected member |
|---|---|---|---|---|---|---|
| DockerJupyterCodeExecutorAgent.py:71-73 | reads `self.jupyter_code_executors`, an attribute the constructor never assigns (line 43 sets `jupyter_code_executor`), so every ExecuteCode step raises | any memory holding one `python` block, with a working python executor | look up the executor registered for the block's language, and raise only for an unsupported language | high; not executed | Actions.ExecuteCodeAsWritten | Actions.ExecuteCode |
| DockerJupyterCodeExecutorAgent.py:86,93 | `cause_by=type(todo)` where `todo` is a bound method, so both actions record the same type | any successful GenerateCode step followed by a successful ExecuteCode step | record the action that produced the message | medium; not executed | Actions.CauseAsWritten | Actions.CauseOf |

`Actions.ExecuteCodeAsWrittenRaises` and `Actions.CauseAsWrittenCollides`
exhibit the two discrepancies. The rest of the model uses the corrected
members.
