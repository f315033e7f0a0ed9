/** The Repeat-Answer entry form (`src/components/RAQuestionInput.tsx`):
    one identifier is stored with its content unless a record already
    carries it. The duplicate check uses the identifier as typed; the stored record
    carries it trimmed. */
module RAQuestionInput {
  import opened Strings
  import opened Records

  const DuplicateError: string := "Question number already exists"

  /** The store after a submission whose query and write both succeed:
      stored records are kept as they are, and one record is added exactly
      when no record carries the identifier as typed; it is a Repeat-Answer
      record with the trimmed identifier and the content. */
  function Submit(docs: seq<Record>, input: string, content: string): (r: seq<Record>)
    ensures |r| >= |docs| && r[..|docs|] == docs
    ensures |r| == |docs| + 1 <==> !HasQuestionNo(docs, input)
    ensures |r| <= |docs| + 1
    ensures |r| > |docs| ==> r[|docs|] == Plain(RA, Trim(input), content)
  {
    if HasQuestionNo(docs, input) then docs else docs + [Plain(RA, Trim(input), content)]
  }

  /** For an identifier typed without surrounding white space no record is
      stored whose identifier another record already carries, so unique
      identifiers stay unique. */
  lemma SubmitNoDuplicate(docs: seq<Record>, input: string, content: string)
    requires Trim(input) == input
    requires UniqueQuestionNos(docs)
    ensures UniqueQuestionNos(Submit(docs, input, content))
  {
    var r := Submit(docs, input, content);
    if !HasQuestionNo(docs, input) {
      forall i, j | 0 <= i < j < |r| ensures r[i].questionNo != r[j].questionNo {
        if j == |docs| {
          assert r[i] in docs;
        }
      }
    }
  }

  /** Surrounding white space gets past the duplicate check: the identifier is looked
      up as typed but stored trimmed, so a second `RA1` record appears. */
  lemma SubmitSpacesBypassCheck()
    ensures var r := Submit([Plain(RA, "RA1", "a")], " RA1", "b");
      |r| == 2 && r[0].questionNo == r[1].questionNo
  {
    var docs := [Plain(RA, "RA1", "a")];
    assert !HasQuestionNo(docs, " RA1") by {
      forall x | x in docs ensures x.questionNo != " RA1" {
        assert x.questionNo[0] != " RA1"[0];
      }
    }
    assert Trim(" RA1") == "RA1" by {
      assert Run(" RA1", 0, IsSpace) == 1 by {
        RunExact(" RA1", 0, IsSpace, 1);
      }
      assert " RA1"[1..] == "RA1";
      assert RunBack("RA1", 3, IsSpace) == 0;
    }
  }

  /** Identifiers are compared as typed: `RA001` is new next to `RA1`. */
  lemma SubmitNoNormalisation()
    ensures var r := Submit([Plain(RA, "RA1", "a")], "RA001", "b");
      |r| == 2 && r[1].questionNo == "RA001"
  {
    var docs := [Plain(RA, "RA1", "a")];
    assert !HasQuestionNo(docs, "RA001") by {
      forall x | x in docs ensures x.questionNo != "RA001" {
        assert |x.questionNo| == 3;
      }
    }
    TrimNoSpace("RA001");
  }

  class Component {
    const store: Store
    var questionNo: string
    var newContent: string
    var error: Option<string>
    /** How often `onQuestionAdded` has been called. */
    var callbacks: nat

    constructor (store: Store)
      ensures this.store == store
      ensures questionNo == [] && newContent == [] && error == None && callbacks == 0
    {
      this.store := store;
      questionNo := [];
      newContent := [];
      error := None;
      callbacks := 0;
    }

    /** `handleSubmit`. `readFault` and `writeFault` are the errors the
        store raises on the query and on the write, if it raises one. */
    method HandleSubmit(readFault: Option<string>, writeFault: Option<string>)
      modifies this, store
      ensures readFault.Some? ==>
        store.docs == old(store.docs) && error == readFault
        && questionNo == old(questionNo) && newContent == old(newContent) && callbacks == old(callbacks)
      ensures readFault.None? && HasQuestionNo(old(store.docs), old(questionNo)) ==>
        store.docs == old(store.docs) && error == Some(DuplicateError)
        && questionNo == old(questionNo) && newContent == old(newContent) && callbacks == old(callbacks)
      ensures readFault.None? && !HasQuestionNo(old(store.docs), old(questionNo)) && writeFault.Some? ==>
        store.docs == old(store.docs) && error == writeFault
        && questionNo == old(questionNo) && newContent == old(newContent) && callbacks == old(callbacks)
      ensures readFault.None? && writeFault.None? ==>
        store.docs == Submit(old(store.docs), old(questionNo), old(newContent))
      ensures readFault.None? && !HasQuestionNo(old(store.docs), old(questionNo)) && writeFault.None? ==>
        error == None && questionNo == [] && newContent == [] && callbacks == old(callbacks) + 1
    {
      error := None;
      if readFault.Some? {
        error := readFault;
        return;
      }
      var querySnapshot := WhereQuestionNo(store.docs, questionNo);
      if querySnapshot == [] {
        var ok := store.AddDoc(Plain(RA, Trim(questionNo), newContent), writeFault);
        if !ok {
          error := writeFault;
          return;
        }
        questionNo := [];
        newContent := [];
        callbacks := callbacks + 1;
      } else {
        error := Some(DuplicateError);
      }
    }
  }
}
