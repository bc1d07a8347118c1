# PromptGenerator operator — Dafny model

This project models the `PromptGenerator` operator of the DataFlow pipeline
library. One call of `run` reads a frame from the storage collaborator,
builds one prompt per row whose input cell is non-empty (`system_prompt`
immediately followed by the cell, no separator), hands the whole batch to the
generation backend in a single call, and then either

- on a backend error: returns nothing, assigns no column and writes nothing; or
- on success: assigns the replies positionally to the output column, writes
  the table once and returns the output column's name.

Modules, leaves first:

- `Wrappers` (`wrappers.dfy`): `Option` for a Python value that may be `None`,
  `Result` for a call that returns or raises.
- `Frame` (`frame.dfy`): a table is `seq<map<string, string>>`; `Cell` is
  `row.get(key, '')`; `AssignColumn` is the positional column assignment.
- `Storage` (`storage.dfy`): the storage collaborator, abstracted as the
  frame it reads plus a log of every table handed to `write`; `Write` only
  appends to that log, so "written once" and "nothing written" are read off
  the log's length.
- `Prompts` (`prompts.dfy`): the prompt-building scan, as the filter-map
  function `BuildPrompts`, as the loop `CollectPrompts`, and its independent
  description through `SourceRows` (which rows contribute) and the set of
  eligible row indices.
- `PromptGenerator` (`prompt_generator.dfy`): `Run` and the properties of the
  whole operator.

Definitions that fix the source's conventions, with the lines they stand for
(all in `dataflow/operators/generate/GeneralText/prompt_generator.py`):

- `Frame.Cell` (line 35): `row.get(input_key, '')`; a column the row lacks reads as the empty string.
- `Frame.Present` (line 36): the truthiness test; a row is used exactly when its input cell is not the empty string.
- `Prompts.RowPrompts` (lines 36-38): one row contributes `[system_prompt + cell]` when present and nothing otherwise.
- `Storage.Read` (line 27): `storage.read('dataframe')` returns the frame the storage holds.
- `Storage.Write` (line 53): `storage.write(table)` appends the table to the write log.
- `PromptGenerator.AssignmentDefined` (line 50): a successful reply has exactly one text per row of the frame.

The backend is a function value `seq<string> -> Result<seq<string>>`; an `Err`
reply stands for any exception raised by `generate_from_input`. Being a
function, it answers a given batch the same way every time. `Run` returns
an `Outcome` holding the returned value, the storage collaborator afterwards
and the log of batches sent to the backend, so "called once", "written once"
and "nothing written" are statements about ordinary values.

The positional assignment at line 50 is only meaningful when the backend
returns one text per row of the frame, while the backend is asked about the
filtered prompts only. `Run` therefore carries this as an explicit
precondition (`AssignmentDefined`) instead of repairing the alignment.
`AlignedIffNoRowSkipped` shows that, for a backend that keeps the batch
length, the precondition holds exactly when no row was skipped, and
`SkippedRowScenario` exhibits a two-row frame with an empty first input for
which it fails. A backend whose reply length does not follow the batch can
still meet the precondition with skipped rows; `MisassignmentScenario` shows
such a run, in which the skipped row receives a reply.

## Model

| member | source | states |
|---|---|---|
| Frame.AssignColumn | dataflow/operators/generate/GeneralText/prompt_generator.py:50 | with one value per row, the result has the same rows in the same order, row i holds value i under the output column, every other column of every row is unchanged, and the output column is the only key that can be added |
| Frame.AssignColumnTwice | dataflow/operators/generate/GeneralText/prompt_generator.py:50 | assigning the same column with the same values a second time leaves the table as the first assignment left it |
| Prompts.BuildPrompts | dataflow/operators/generate/GeneralText/prompt_generator.py:34-38 | the scan never produces more prompts than the table has rows |
| Prompts.SourceRows | dataflow/operators/generate/GeneralText/prompt_generator.py:34-36 | the rows that contribute a prompt are exactly the rows with a non-empty input cell, listed once each in strictly increasing table order |
| Prompts.PromptsFollowSourceRows | dataflow/operators/generate/GeneralText/prompt_generator.py:34-38 | there is one prompt per contributing row, and the k-th prompt is exactly the system prompt followed by the input cell of the k-th contributing row, with nothing in between |
| Prompts.PromptCount | dataflow/operators/generate/GeneralText/prompt_generator.py:34-38 | the number of prompts equals the number of row indices whose input cell is present and non-empty |
| Prompts.BuildPromptsSnoc | dataflow/operators/generate/GeneralText/prompt_generator.py:34-38 | appending a row to the table appends that row's prompt, if any, at the end of the batch |
| Prompts.BuildPromptsAppend | dataflow/operators/generate/GeneralText/prompt_generator.py:34-38 | the batch of a concatenated table is the concatenation of the two tables' batches, so the scan preserves order |
| Prompts.SkippedRowContributesNothing | dataflow/operators/generate/GeneralText/prompt_generator.py:35-36 | a row whose input cell is absent or empty contributes no prompt: deleting it from the table leaves the batch unchanged |
| Prompts.FullBatchIffNoRowSkipped | dataflow/operators/generate/GeneralText/prompt_generator.py:34-38 | the batch has as many prompts as the table has rows if and only if every row has a non-empty input cell |
| Prompts.NoRowSkippedMapsEveryRow | dataflow/operators/generate/GeneralText/prompt_generator.py:36-38 | when every row has a non-empty input cell, prompt i is built from row i |
| Prompts.PromptsReadOnlyInputColumn | dataflow/operators/generate/GeneralText/prompt_generator.py:35 | the batch depends only on the input column: two tables of the same length that agree on it give the same batch |
| Prompts.CollectPrompts | dataflow/operators/generate/GeneralText/prompt_generator.py:31-38 | the loop that appends as it scans computes exactly the filter-map batch, never longer than the table |
| PromptGenerator.Run | dataflow/operators/generate/GeneralText/prompt_generator.py:22-54 | the backend is called exactly once, with the whole batch; the operator returns a value if and only if the backend succeeds; on failure the storage is untouched; on success it returns the output column's name, writes exactly one table, leaves the read frame alone, and the written table is the read frame with the replies assigned positionally to the output column and all other columns kept |
| PromptGenerator.AlignedIffNoRowSkipped | dataflow/operators/generate/GeneralText/prompt_generator.py:34-50 | for a backend that answers with one text per prompt, the positional assignment is defined if and only if no row was skipped |
| PromptGenerator.NoRowSkippedPositional | dataflow/operators/generate/GeneralText/prompt_generator.py:34-53 | when no row is skipped and the backend keeps the batch length, the backend receives the prompt of every row in table order and row i of the written table holds reply i |
| PromptGenerator.RerunIsIdempotent | dataflow/operators/generate/GeneralText/prompt_generator.py:27-53 | with an output column distinct from the input column, running again on the written table sends the same batch; for a backend that gives the same replies to the same batch, it therefore writes the same table |
| PromptGenerator.EmptyFrameStillCallsBackend | dataflow/operators/generate/GeneralText/prompt_generator.py:31-43 | an empty frame still costs one backend call, with the empty batch |
| PromptGenerator.GreetingScenario | dataflow/operators/generate/GeneralText/prompt_generator.py:22-54 | the frame `Hello`, `World` with system prompt `Q: ` and a backend answering `Hi!`, `Earth.` gives `Hi!` in row 0 and `Earth.` in row 1 and returns `generated_content` |
| PromptGenerator.MisassignmentScenario | dataflow/operators/generate/GeneralText/prompt_generator.py:34-54 | with the default system prompt, a frame whose first input is empty gives a one-prompt batch; a backend answering any batch with two texts still satisfies the length requirement, the run returns `generated_content`, and the skipped row 0 receives the first reply `a` while row 1 receives `b` |
| PromptGenerator.SkippedRowScenario | dataflow/operators/generate/GeneralText/prompt_generator.py:34-50 | a frame with an empty input followed by `World` yields the single prompt `system_prompt + "World"`, so a length-keeping backend reply cannot be assigned positionally to the two rows |

## Left out

- Logging (lines 24, 28, 42, 44, 46): advisory messages with no effect on the result.
- The registry decorator, the constructor's logger lookup and `get_desc`: registration and display text, not logic. The backend held by the constructor (lines 14-16) is passed to `Run` as a parameter.
- Storing `input_key` and `output_key` on the instance (line 23): no effect visible to the caller.
- `storage.read`/`storage.write` raising: the storage calls (lines 27, 53) are outside the exception handler, and failures of the storage collaborator are not modelled.
- pandas cell semantics: cells are strings; NaN and non-string cells, and their truthiness, are not modelled. An absent column and an empty string are both "skip", as `row.get(key, '')` followed by the truthiness test makes them.
- PromptGenerator.Run: what pandas does when the number of replies differs from the number of rows is not modelled; `Run` requires the lengths to agree (`AssignmentDefined`). For a backend that answers each batch with one text per prompt (`PreservesLength`), a skipped row therefore makes the run fall outside the precondition (`AlignedIffNoRowSkipped`, `SkippedRowScenario`); a backend whose reply length does not follow the batch can meet it with skipped rows, and then replies land on the wrong rows (`MisassignmentScenario`).
- PromptGenerator.Run: assumes `storage.read` returns a table the storage does not share. Line 50 updates the returned dataframe in place; the model builds a new table instead, so the frame the storage reads afterwards is the one it held before, and a storage that shared the object would see the new column.
- The concrete generation backend and the storage persistence format: external collaborators, seen only through their one-call interfaces.
- PromptGenerator.RerunIsIdempotent: the backend is modelled as a function of the batch, so it answers a given batch the same way every time; a sampling language model need not. Repeated runs from the same state give the same result, and a re-run writes the same table, only for a backend that gives the same replies to the same batch. That the re-run sends the same batch holds for any backend.
