/** The log of executed actions: one id per line. */
module ReplayCache {
  import opened Text

  /** `already_executed_in`. */
  predicate AlreadyExecuted(content: string, id: string) {
    exists i :: 0 <= i < |Lines(content)| && Trim(Lines(content)[i]) == id
  }

  /** `record_to`. */
  function Record(content: string, id: string): string {
    content + (id + "\n")
  }

  /** Recording an id adds exactly that id to what is found, and keeps the log a text of whole lines. */
  lemma RecordAddsOne(content: string, recorded: string, id: string)
    requires WholeLines(content) && SpaceFree(recorded)
    ensures AlreadyExecuted(Record(content, recorded), id) <==> AlreadyExecuted(content, id) || id == recorded
    ensures WholeLines(Record(content, recorded))
  {
    LinesAppend(content, recorded + "\n", "");
    OneLine(recorded, "");
    assert "" + recorded == recorded;
    TrimSpaceFree(recorded);
    var before, after := Lines(content), Lines(Record(content, recorded));
    assert after == before + [recorded];
    if AlreadyExecuted(content, id) {
      var i :| 0 <= i < |before| && Trim(before[i]) == id;
      assert after[i] == before[i];
    }
    assert after[|before|] == recorded;
  }
}
