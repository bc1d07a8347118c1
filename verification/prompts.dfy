/**
  Prompt construction: the rows of the table are scanned in order and every
  row whose input cell is non-empty contributes `systemPrompt + cell`, with no
  separator. Rows with an absent or empty input cell contribute nothing.
 */
module Prompts {
  import opened Frame

  /** The prompts a single row contributes: one, or none when its input cell is empty. */
  function RowPrompts(row: Row, systemPrompt: string, inputKey: string): seq<string> {
    if Present(row, inputKey) then [systemPrompt + Cell(row, inputKey)] else []
  }

  /** The batch of prompts built from `rows`, in table order (the filter-then-map of the loop). */
  function BuildPrompts(rows: Table, systemPrompt: string, inputKey: string): (prompts: seq<string>)
    ensures |prompts| <= |rows|
    decreases |rows|
  {
    if |rows| == 0 then []
    else BuildPrompts(rows[..|rows| - 1], systemPrompt, inputKey)
         + RowPrompts(rows[|rows| - 1], systemPrompt, inputKey)
  }

  /** The indices of the rows with a non-empty input cell. */
  ghost predicate IsEligibleSet(rows: Table, inputKey: string, s: set<int>) {
    forall i :: i in s <==> 0 <= i < |rows| && Present(rows[i], inputKey)
  }

  /**
    The rows that contribute a prompt, as strictly increasing row indices:
    exactly the rows whose input cell is non-empty, each once, in table order.
   */
  function SourceRows(rows: Table, inputKey: string): (idx: seq<int>)
    ensures |idx| <= |rows|
    ensures forall k :: 0 <= k < |idx| ==> 0 <= idx[k] < |rows| && Present(rows[idx[k]], inputKey)
    ensures forall k, l :: 0 <= k < l < |idx| ==> idx[k] < idx[l]
    ensures forall i :: 0 <= i < |rows| && Present(rows[i], inputKey) ==> i in idx
    decreases |rows|
  {
    if |rows| == 0 then []
    else
      var n := |rows| - 1;
      var init := SourceRows(rows[..n], inputKey);
      assert forall i :: 0 <= i < n ==> rows[..n][i] == rows[i];
      if Present(rows[n], inputKey) then init + [n] else init
  }

  /**
    The k-th prompt comes from the k-th eligible row and is exactly the system
    prompt followed by that row's input cell.
   */
  lemma {:induction false} PromptsFollowSourceRows(rows: Table, systemPrompt: string, inputKey: string)
    ensures |BuildPrompts(rows, systemPrompt, inputKey)| == |SourceRows(rows, inputKey)|
    ensures forall k :: 0 <= k < |SourceRows(rows, inputKey)| ==>
              BuildPrompts(rows, systemPrompt, inputKey)[k]
              == systemPrompt + Cell(rows[SourceRows(rows, inputKey)[k]], inputKey)
    decreases |rows|
  {
    if |rows| > 0 {
      var n := |rows| - 1;
      var init := rows[..n];
      PromptsFollowSourceRows(init, systemPrompt, inputKey);
      var idx0 := SourceRows(init, inputKey);
      var p0 := BuildPrompts(init, systemPrompt, inputKey);
      forall k | 0 <= k < |idx0|
        ensures p0[k] == systemPrompt + Cell(rows[idx0[k]], inputKey)
      {
        assert init[idx0[k]] == rows[idx0[k]];
      }
    }
  }

  /** Appending a row to the table appends that row's prompts to the batch. */
  lemma BuildPromptsSnoc(rows: Table, row: Row, systemPrompt: string, inputKey: string)
    ensures BuildPrompts(rows + [row], systemPrompt, inputKey)
            == BuildPrompts(rows, systemPrompt, inputKey) + RowPrompts(row, systemPrompt, inputKey)
  {
  }

  /** Building prompts distributes over concatenation of tables. */
  lemma {:induction false} BuildPromptsAppend(a: Table, b: Table, systemPrompt: string, inputKey: string)
    ensures BuildPrompts(a + b, systemPrompt, inputKey)
            == BuildPrompts(a, systemPrompt, inputKey) + BuildPrompts(b, systemPrompt, inputKey)
    decreases |b|
  {
    if |b| == 0 {
      assert a + b == a;
    } else {
      var b0, row := b[..|b| - 1], b[|b| - 1];
      assert b == b0 + [row];
      calc {
        BuildPrompts(a + b, systemPrompt, inputKey);
        { assert a + b == (a + b0) + [row]; }
        BuildPrompts((a + b0) + [row], systemPrompt, inputKey);
        { BuildPromptsSnoc(a + b0, row, systemPrompt, inputKey); }
        BuildPrompts(a + b0, systemPrompt, inputKey) + RowPrompts(row, systemPrompt, inputKey);
        { BuildPromptsAppend(a, b0, systemPrompt, inputKey); }
        BuildPrompts(a, systemPrompt, inputKey) + BuildPrompts(b0, systemPrompt, inputKey) + RowPrompts(row, systemPrompt, inputKey);
        { BuildPromptsSnoc(b0, row, systemPrompt, inputKey); }
        BuildPrompts(a, systemPrompt, inputKey) + BuildPrompts(b, systemPrompt, inputKey);
      }
    }
  }

  /**
    A row whose input cell is absent or empty contributes no prompt: removing
    it from the table leaves the prompt batch unchanged.
   */
  lemma SkippedRowContributesNothing(rows: Table, i: int, systemPrompt: string, inputKey: string)
    requires 0 <= i < |rows|
    requires !Present(rows[i], inputKey)
    ensures BuildPrompts(rows, systemPrompt, inputKey)
            == BuildPrompts(rows[..i] + rows[i + 1..], systemPrompt, inputKey)
  {
    var before, after := rows[..i], rows[i + 1..];
    assert rows == (before + [rows[i]]) + after;
    assert RowPrompts(rows[i], systemPrompt, inputKey) == [];
    calc {
      BuildPrompts(rows, systemPrompt, inputKey);
      { BuildPromptsAppend(before + [rows[i]], after, systemPrompt, inputKey); }
      BuildPrompts(before + [rows[i]], systemPrompt, inputKey) + BuildPrompts(after, systemPrompt, inputKey);
      { BuildPromptsSnoc(before, rows[i], systemPrompt, inputKey); }
      BuildPrompts(before, systemPrompt, inputKey) + BuildPrompts(after, systemPrompt, inputKey);
      { BuildPromptsAppend(before, after, systemPrompt, inputKey); }
      BuildPrompts(before + after, systemPrompt, inputKey);
    }
  }

  /** The number of prompts is the number of rows whose input cell is non-empty. */
  lemma {:induction false} PromptCount(rows: Table, systemPrompt: string, inputKey: string, eligible: set<int>)
    requires IsEligibleSet(rows, inputKey, eligible)
    ensures |BuildPrompts(rows, systemPrompt, inputKey)| == |eligible|
    decreases |rows|
  {
    if |rows| == 0 {
      assert eligible == {} by {
        forall i | i in eligible ensures false {}
      }
    } else {
      var n := |rows| - 1;
      var init := rows[..n];
      var eligible0 := eligible - {n};
      assert IsEligibleSet(init, inputKey, eligible0) by {
        forall i ensures i in eligible0 <==> 0 <= i < |init| && Present(init[i], inputKey) {
          if 0 <= i < n {
            assert init[i] == rows[i];
          }
        }
      }
      PromptCount(init, systemPrompt, inputKey, eligible0);
      if Present(rows[n], inputKey) {
        assert eligible == eligible0 + {n};
      } else {
        assert eligible == eligible0;
      }
    }
  }

  /** The batch has one prompt per row exactly when no row is skipped. */
  lemma {:induction false} FullBatchIffNoRowSkipped(rows: Table, systemPrompt: string, inputKey: string)
    ensures |BuildPrompts(rows, systemPrompt, inputKey)| == |rows|
            <==> forall i :: 0 <= i < |rows| ==> Present(rows[i], inputKey)
    decreases |rows|
  {
    if |rows| > 0 {
      var n := |rows| - 1;
      var init := rows[..n];
      FullBatchIffNoRowSkipped(init, systemPrompt, inputKey);
      assert forall i :: 0 <= i < n ==> init[i] == rows[i];
    }
  }

  /** When no row is skipped, prompt i is built from row i. */
  lemma {:induction false} NoRowSkippedMapsEveryRow(rows: Table, systemPrompt: string, inputKey: string)
    requires forall i :: 0 <= i < |rows| ==> Present(rows[i], inputKey)
    ensures |BuildPrompts(rows, systemPrompt, inputKey)| == |rows|
    ensures forall i :: 0 <= i < |rows| ==>
              BuildPrompts(rows, systemPrompt, inputKey)[i] == systemPrompt + Cell(rows[i], inputKey)
    decreases |rows|
  {
    if |rows| > 0 {
      var n := |rows| - 1;
      var init := rows[..n];
      assert forall i :: 0 <= i < n ==> init[i] == rows[i];
      NoRowSkippedMapsEveryRow(init, systemPrompt, inputKey);
    }
  }

  /** Prompts depend only on the input column: tables that agree on it give the same batch. */
  lemma {:induction false} PromptsReadOnlyInputColumn(a: Table, b: Table, systemPrompt: string, inputKey: string)
    requires |a| == |b|
    requires forall i :: 0 <= i < |a| ==> Cell(a[i], inputKey) == Cell(b[i], inputKey)
    ensures BuildPrompts(a, systemPrompt, inputKey) == BuildPrompts(b, systemPrompt, inputKey)
    decreases |a|
  {
    if |a| > 0 {
      var n := |a| - 1;
      assert forall i :: 0 <= i < n ==> a[..n][i] == a[i] && b[..n][i] == b[i];
      PromptsReadOnlyInputColumn(a[..n], b[..n], systemPrompt, inputKey);
    }
  }

  /** The scan of the table as the operator writes it: one pass, appending as it goes. */
  method CollectPrompts(rows: Table, systemPrompt: string, inputKey: string) returns (llmInputs: seq<string>)
    ensures llmInputs == BuildPrompts(rows, systemPrompt, inputKey)
    ensures |llmInputs| <= |rows|
  {
    llmInputs := [];
    var i := 0;
    while i < |rows|
      invariant 0 <= i <= |rows|
      invariant llmInputs == BuildPrompts(rows[..i], systemPrompt, inputKey)
    {
      var rawContent := Cell(rows[i], inputKey);
      if rawContent != "" {
        llmInputs := llmInputs + [systemPrompt + rawContent];
      }
      assert rows[..i + 1][..i] == rows[..i];
      i := i + 1;
    }
    assert rows[..|rows|] == rows;
  }
}
