// The two actions' collaborators: the markdown code extractor, the prompt
// and completion behind `generate_code`, and the executor registry behind
// `execute_code`. The extractor's scanner, the completion service and the
// executors are outside the model and come in as function parameters.

module Actions {
  import opened Types
  import opened CodeParser

  /** Scans one message's text for fenced blocks, in document order. */
  type Scanner = string -> seq<CodeBlock>

  /** The language model: a prompt in, a reply out, or an exception. */
  type Completion = string -> Reply<string>

  /** A kernel executor: runs the blocks and reports their output, or raises. */
  type Executor = seq<CodeBlock> -> Reply<ExecResult>

  /** `extract_code_blocks(messages)`: the blocks of each message, message
      after message, so the order of the memory is kept. */
  function Extract(scan: Scanner, msgs: seq<Message>): (blocks: seq<CodeBlock>)
    ensures blocks == [] <==> forall i :: 0 <= i < |msgs| ==> scan(msgs[i].content) == []
  {
    if msgs == [] then [] else scan(msgs[0].content) + Extract(scan, msgs[1..])
  }

  /** Extraction is order-preserving: the blocks of a concatenation are the
      blocks of the first part followed by those of the second. */
  lemma {:induction false} ExtractConcat(scan: Scanner, a: seq<Message>, b: seq<Message>)
    ensures Extract(scan, a + b) == Extract(scan, a) + Extract(scan, b)
  {
    if a == [] {
      assert a + b == b;
    } else {
      assert (a + b)[0] == a[0];
      assert (a + b)[1..] == a[1..] + b;
      ExtractConcat(scan, a[1..], b);
      calc {
        Extract(scan, a + b);
        scan(a[0].content) + Extract(scan, a[1..] + b);
        scan(a[0].content) + (Extract(scan, a[1..]) + Extract(scan, b));
        Extract(scan, a) + Extract(scan, b);
      }
    }
  }

  /** Messages appended after a history that already holds a block do not
      change its first block, so they do not change the chosen language. */
  lemma FirstBlockStable(scan: Scanner, history: seq<Message>, later: seq<Message>)
    requires Extract(scan, history) != []
    ensures Extract(scan, history + later) != []
    ensures Extract(scan, history + later)[0] == Extract(scan, history)[0]
  {
    ExtractConcat(scan, history, later);
  }

  const PromptHead: string := "\n            Write a "
  const PromptMid: string := " function that can "
  const PromptReturn: string := ".\n            Return "
  const PromptTail: string := " your_code_here ``` with NO other texts.\n            Your code:\n            "

  /** The prompt `generate_code` sends, character for character. It names
      the language, carries the instruction and asks for a block under the
      very opening fence `ParseCode` later searches for. */
  function Prompt(instruction: string, language: string): (p: string)
    ensures OccursAt(p, language, |PromptHead|)
    ensures OccursAt(p, instruction, |PromptHead| + |language| + |PromptMid|)
    ensures OccursAt(p, Opening(language),
                     |PromptHead| + |language| + |PromptMid| + |instruction| + |PromptReturn|)
  {
    PromptPlaces(PromptHead, language, PromptMid, instruction, PromptReturn, Opening(language), PromptTail);
    PromptHead + language + PromptMid + instruction + PromptReturn + Opening(language) + PromptTail
  }

  /** Where the interpolated parts sit in a template of seven pieces. */
  lemma PromptPlaces(h: string, l: string, m: string, i: string, r: string, o: string, t: string)
    ensures OccursAt(h + l + m + i + r + o + t, l, |h|)
    ensures OccursAt(h + l + m + i + r + o + t, i, |h| + |l| + |m|)
    ensures OccursAt(h + l + m + i + r + o + t, o, |h| + |l| + |m| + |i| + |r|)
  {
    OccursAtEnd(h, l);
    OccursExtend(h + l, m, l, |h|);
    OccursExtend(h + l + m, i, l, |h|);
    OccursExtend(h + l + m + i, r, l, |h|);
    OccursExtend(h + l + m + i + r, o, l, |h|);
    OccursExtend(h + l + m + i + r + o, t, l, |h|);
    OccursAtEnd(h + l + m, i);
    OccursExtend(h + l + m + i, r, i, |h| + |l| + |m|);
    OccursExtend(h + l + m + i + r, o, i, |h| + |l| + |m|);
    OccursExtend(h + l + m + i + r + o, t, i, |h| + |l| + |m|);
    OccursAtEnd(h + l + m + i + r, o);
    OccursExtend(h + l + m + i + r + o, t, o, |h| + |l| + |m| + |i| + |r|);
  }

  lemma OccursAtEnd(a: string, b: string)
    ensures OccursAt(a + b, b, |a|)
  {
    assert (a + b)[|a|..|a| + |b|] == b;
  }

  lemma OccursExtend(a: string, b: string, pat: string, j: nat)
    requires OccursAt(a, pat, j)
    ensures OccursAt(a + b, pat, j)
  {
    assert (a + b)[j..j + |pat|] == a[j..j + |pat|];
  }

  /** `generate_code(instruction, language)`: build the prompt, ask the
      completion service once, and parse the code out of its reply. */
  function GenerateCode(instruction: string, language: string, complete: Completion): (r: Result<string>)
    ensures r.Err? <==> complete(Prompt(instruction, language)).Raised?
    ensures r.Err? ==> r.error == CompletionRaised
    ensures r.Ok? ==> r.value == ParseCode(complete(Prompt(instruction, language)).value, language)
  {
    match complete(Prompt(instruction, language))
    case Raised => Err(CompletionRaised)
    case Returned(reply) => Ok(ParseCode(reply, language))
  }

  /** A reply that is one fenced block tagged with the language yields the
      code inside it, with no fence markers. */
  lemma GenerateCodeFencedReply(instruction: string, language: string, complete: Completion, code: string)
    requires complete(Prompt(instruction, language)) == Returned(Opening(language) + code + Fence)
    requires forall k: nat :: !OccursAt(code, Fence, k)
    requires code == [] || code[|code| - 1] != '`'
    ensures GenerateCode(instruction, language, complete) == Ok(code)
  {
    ParseCodeSingleBlock(language, code);
  }

  /** A reply with no block tagged with the language comes back unchanged. */
  lemma GenerateCodeUnfencedReply(instruction: string, language: string, complete: Completion, reply: string)
    requires complete(Prompt(instruction, language)) == Returned(reply)
    requires forall i: nat :: !OccursAt(reply, Opening(language), i)
    ensures GenerateCode(instruction, language, complete) == Ok(reply)
  {
    ParseCodeFallback(reply, language);
  }

  /** `execute_code(code_blocks, language)`, with the executor registry
      keyed by language that the code evidently means to read: an
      unregistered language raises before anything runs. */
  function ExecuteCode(blocks: seq<CodeBlock>, language: string, executors: map<string, Executor>): (r: Result<ExecResult>)
    ensures language !in executors ==> r == Err(UnsupportedLanguage(language))
    ensures language in executors ==>
      (r.Ok? <==> executors[language](blocks).Returned?) &&
      (r.Ok? ==> r.value == executors[language](blocks).value) &&
      (r.Err? ==> r.error == ExecutorRaised)
  {
    if language !in executors then Err(UnsupportedLanguage(language))
    else match executors[language](blocks)
      case Raised => Err(ExecutorRaised)
      case Returned(result) => Ok(result)
  }

  /** The registry as the constructor leaves it: the constructor assigns a
      single `jupyter_code_executor` and never `jupyter_code_executors`. */
  const RegistryAsConstructed: Option<map<string, Executor>> := None

  /** `execute_code` as written: it reads the attribute `jupyter_code_executors`,
      which raises when the attribute was never assigned. */
  function ExecuteCodeAsWritten(registry: Option<map<string, Executor>>, blocks: seq<CodeBlock>, language: string): (r: Result<ExecResult>)
    ensures registry.None? ==> r == Err(MissingExecutorRegistry)
    ensures registry.Some? ==> r == ExecuteCode(blocks, language, registry.value)
  {
    match registry
    case None => Err(MissingExecutorRegistry)
    case Some(executors) => ExecuteCode(blocks, language, executors)
  }

  /** As constructed, every `execute_code` call raises, even for a block in
      the kernel's own language with a working executor at hand. */
  lemma ExecuteCodeAsWrittenRaises(run: Executor, output: string)
    requires run([CodeBlock("print(1)", "python")]) == Returned(ExecResult(output, 0))
    ensures ExecuteCodeAsWritten(RegistryAsConstructed, [CodeBlock("print(1)", "python")], "python")
            == Err(MissingExecutorRegistry)
    ensures ExecuteCode([CodeBlock("print(1)", "python")], "python", map["python" := run])
            == Ok(ExecResult(output, 0))
  {
  }

  /** `cause_by=type(todo)` as written: `todo` is a bound method, so both
      actions record the same type. */
  function CauseAsWritten(todo: Action): (c: Cause)
    ensures c != By(todo)
  {
    MethodType
  }

  lemma CauseAsWrittenCollides()
    ensures CauseAsWritten(Action.GenerateCode) == CauseAsWritten(Action.ExecuteCode)
  {
  }

  /** The cause the agent evidently means to record: the action that ran. */
  function CauseOf(todo: Action): (c: Cause)
    ensures c.By? && c.action == todo
  {
    By(todo)
  }

  lemma CauseOfDistinguishes(a: Action, b: Action)
    requires CauseOf(a) == CauseOf(b)
    ensures a == b
  {
  }
}
