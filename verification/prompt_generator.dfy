/**
  The `PromptGenerator` operator: read the frame, build one prompt per row
  with a non-empty input cell, call the generation backend once with the whole
  batch, and on success store the replies as the output column, write the
  table once and return the output column's name. On a backend failure the
  operator returns nothing and writes nothing.
 */
module PromptGenerator {
  import opened Wrappers
  import opened Frame
  import opened Prompts
  import opened Storage

  /** The generation backend's one call: a batch of prompts in, generated texts out, or an error. */
  type Backend = seq<string> -> Result<seq<string>>

  const DefaultSystemPrompt: string := "You are a helpful agent."
  const DefaultInputKey: string := "raw_content"
  const DefaultOutputKey: string := "generated_content"

  /**
    What one run leaves behind: the value returned (`None` for the bare
    `return`), the storage collaborator afterwards, and every batch handed to
    the backend, in call order.
   */
  datatype Outcome = Outcome(returned: Option<string>, storage: Storage, backendCalls: seq<seq<string>>)

  /**
    The column assignment is positional onto the whole frame, so it is only
    defined when a successful reply has exactly one text per row, whether or
    not some rows were skipped when the prompts were built.
   */
  predicate AssignmentDefined(storage: Storage, backend: Backend, systemPrompt: string, inputKey: string) {
    var reply := backend(BuildPrompts(Read(storage), systemPrompt, inputKey));
    reply.Ok? ==> |reply.value| == |Read(storage)|
  }

  /** `PromptGenerator.run(storage, system_prompt, input_key, output_key)`. */
  function Run(storage: Storage, backend: Backend, systemPrompt: string, inputKey: string, outputKey: string): (o: Outcome)
    requires AssignmentDefined(storage, backend, systemPrompt, inputKey)
    ensures |o.backendCalls| == 1
    ensures o.backendCalls[0] == BuildPrompts(Read(storage), systemPrompt, inputKey)
    ensures o.returned.Some? <==> backend(o.backendCalls[0]).Ok?
    ensures o.returned.None? ==> o.storage == storage
    ensures o.returned.Some? ==>
              && o.returned.value == outputKey
              && Read(o.storage) == Read(storage)
              && |o.storage.writes| == |storage.writes| + 1
              && o.storage.writes[..|storage.writes|] == storage.writes
              && ColumnAssigned(Read(storage), o.storage.writes[|storage.writes|], outputKey,
                                backend(o.backendCalls[0]).value)
  {
    var dataframe := Read(storage);
    var llmInputs := BuildPrompts(dataframe, systemPrompt, inputKey);
    match backend(llmInputs)
    case Err(_) => Outcome(None, storage, [llmInputs])
    case Ok(generatedOutputs) =>
      var updated := AssignColumn(dataframe, outputKey, generatedOutputs);
      Outcome(Some(outputKey), Write(storage, updated), [llmInputs])
  }

  /** The table `Run` wrote, when it wrote one. */
  function Written(storage: Storage, o: Outcome): Table
    requires |o.storage.writes| > |storage.writes|
  {
    o.storage.writes[|storage.writes|]
  }

  /** A backend that answers this batch with one text per prompt. */
  predicate PreservesLength(backend: Backend, prompts: seq<string>) {
    backend(prompts).Ok? ==> |backend(prompts).value| == |prompts|
  }

  /**
    With a backend that keeps the batch length, the positional assignment is
    defined exactly when no row was skipped, i.e. every row has a non-empty
    input cell.
   */
  lemma AlignedIffNoRowSkipped(storage: Storage, backend: Backend, systemPrompt: string, inputKey: string)
    requires PreservesLength(backend, BuildPrompts(Read(storage), systemPrompt, inputKey))
    requires backend(BuildPrompts(Read(storage), systemPrompt, inputKey)).Ok?
    ensures AssignmentDefined(storage, backend, systemPrompt, inputKey)
            <==> forall i :: 0 <= i < |Read(storage)| ==> Present(Read(storage)[i], inputKey)
  {
    FullBatchIffNoRowSkipped(Read(storage), systemPrompt, inputKey);
  }

  /**
    When every row has a non-empty input cell and the backend keeps the batch
    length, row i of the written table holds the backend's i-th reply to the
    batch whose i-th prompt is the system prompt followed by row i's input.
   */
  lemma NoRowSkippedPositional(storage: Storage, backend: Backend, systemPrompt: string, inputKey: string, outputKey: string)
    requires forall i :: 0 <= i < |Read(storage)| ==> Present(Read(storage)[i], inputKey)
    requires PreservesLength(backend, BuildPrompts(Read(storage), systemPrompt, inputKey))
    requires backend(BuildPrompts(Read(storage), systemPrompt, inputKey)).Ok?
    ensures AssignmentDefined(storage, backend, systemPrompt, inputKey)
    ensures var t := Read(storage);
            var batch := seq(|t|, j requires 0 <= j < |t| => systemPrompt + Cell(t[j], inputKey));
            var o := Run(storage, backend, systemPrompt, inputKey, outputKey);
            && o.backendCalls == [batch]
            && o.returned == Some(outputKey)
            && |Written(storage, o)| == |t|
            && forall i :: 0 <= i < |t| ==> Cell(Written(storage, o)[i], outputKey) == backend(batch).value[i]
  {
    var t := Read(storage);
    NoRowSkippedMapsEveryRow(t, systemPrompt, inputKey);
    var batch := seq(|t|, j requires 0 <= j < |t| => systemPrompt + Cell(t[j], inputKey));
    assert BuildPrompts(t, systemPrompt, inputKey) == batch;
  }

  /**
    Re-running the operator on the table it wrote, with an output column
    distinct from the input column, sends the same batch; a backend that gives
    the same replies to the same batch then writes the same table again.
   */
  lemma RerunIsIdempotent(storage: Storage, backend: Backend, systemPrompt: string, inputKey: string, outputKey: string)
    requires inputKey != outputKey
    requires AssignmentDefined(storage, backend, systemPrompt, inputKey)
    requires Run(storage, backend, systemPrompt, inputKey, outputKey).returned.Some?
    ensures var first := Run(storage, backend, systemPrompt, inputKey, outputKey);
            var again := Storage(Written(storage, first), first.storage.writes);
            && AssignmentDefined(again, backend, systemPrompt, inputKey)
            && Run(again, backend, systemPrompt, inputKey, outputKey).backendCalls == first.backendCalls
            && Written(again, Run(again, backend, systemPrompt, inputKey, outputKey)) == Written(storage, first)
  {
    var first := Run(storage, backend, systemPrompt, inputKey, outputKey);
    var t := Read(storage);
    var t1 := Written(storage, first);
    var outputs := backend(first.backendCalls[0]).value;
    assert t1 == AssignColumn(t, outputKey, outputs);
    PromptsReadOnlyInputColumn(t, t1, systemPrompt, inputKey);
    AssignColumnTwice(t, outputKey, outputs);
  }

  /** An empty frame still costs one backend call, with the empty batch. */
  lemma EmptyFrameStillCallsBackend(storage: Storage, backend: Backend, systemPrompt: string, inputKey: string, outputKey: string)
    requires |Read(storage)| == 0
    requires AssignmentDefined(storage, backend, systemPrompt, inputKey)
    ensures Run(storage, backend, systemPrompt, inputKey, outputKey).backendCalls == [[]]
  {
  }

  /** Two rows, both with input: each row receives the reply to its own prompt. */
  lemma GreetingScenario()
    ensures var table := [map[DefaultInputKey := "Hello"], map[DefaultInputKey := "World"]];
            var backend: Backend := ps => if ps == ["Q: Hello", "Q: World"] then Ok(["Hi!", "Earth."]) else Err("unexpected batch");
            var storage := Storage(table, []);
            && AssignmentDefined(storage, backend, "Q: ", DefaultInputKey)
            && var o := Run(storage, backend, "Q: ", DefaultInputKey, DefaultOutputKey);
               && o.returned == Some(DefaultOutputKey)
               && |o.storage.writes| == 1
               && Cell(o.storage.writes[0][0], DefaultOutputKey) == "Hi!"
               && Cell(o.storage.writes[0][1], DefaultOutputKey) == "Earth."
  {
    var table := [map[DefaultInputKey := "Hello"], map[DefaultInputKey := "World"]];
    var r0, r1 := table[0], table[1];
    assert Cell(r0, DefaultInputKey) == "Hello" && Cell(r1, DefaultInputKey) == "World";
    assert "Q: " + "Hello" == "Q: Hello" && "Q: " + "World" == "Q: World";
    BuildPromptsSnoc([], r0, "Q: ", DefaultInputKey);
    BuildPromptsSnoc([r0], r1, "Q: ", DefaultInputKey);
    assert [] + [r0] == [r0] && [r0] + [r1] == table;
  }

  /**
    A skipped row ahead of a filled one: the batch holds one prompt for two
    rows, so no length-keeping backend reply can be assigned positionally.
   */
  lemma SkippedRowScenario(backend: Backend, systemPrompt: string)
    requires var ps := [systemPrompt + "World"]; PreservesLength(backend, ps) && backend(ps).Ok?
    ensures var table := [map[DefaultInputKey := ""], map[DefaultInputKey := "World"]];
            && BuildPrompts(table, systemPrompt, DefaultInputKey) == [systemPrompt + "World"]
            && !AssignmentDefined(Storage(table, []), backend, systemPrompt, DefaultInputKey)
  {
  }

  /**
    A backend whose reply length does not follow the batch: the empty first
    row produces no prompt, yet the two replies are assigned positionally, so
    the skipped row receives the first reply and the second row the other.
   */
  lemma MisassignmentScenario()
    ensures var table := [map[DefaultInputKey := ""], map[DefaultInputKey := "World"]];
            var backend: Backend := ps => Ok(["a", "b"]);
            var storage := Storage(table, []);
            && BuildPrompts(table, DefaultSystemPrompt, DefaultInputKey) == [DefaultSystemPrompt + "World"]
            && AssignmentDefined(storage, backend, DefaultSystemPrompt, DefaultInputKey)
            && var o := Run(storage, backend, DefaultSystemPrompt, DefaultInputKey, DefaultOutputKey);
               && o.returned == Some(DefaultOutputKey)
               && |Written(storage, o)| == 2
               && Cell(Written(storage, o)[0], DefaultOutputKey) == "a"
               && Cell(Written(storage, o)[1], DefaultOutputKey) == "b"
  {
  }
}
