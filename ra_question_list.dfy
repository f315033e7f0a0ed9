/** The Repeat-Answer list (`src/components/RAQuestionList.tsx`): the stored
    Repeat-Answer records, narrowed by a search term and sorted by the number
    in their identifier; exportable as CSV. */
module RAQuestionList {
  import opened Strings
  import opened Records
  import opened ListView
  import opened Csv

  class Component {
    const store: Store
    var debouncedSearchTerm: string
    var questions: seq<Record>
    var error: Option<string>

    constructor (store: Store)
      ensures this.store == store
      ensures debouncedSearchTerm == [] && questions == [] && error == None
    {
      this.store := store;
      debouncedSearchTerm := [];
      questions := [];
      error := None;
    }

    /** `fetchQuestions`: the pipeline with the type fixed to `RA`. */
    method FetchQuestions(readFault: Option<string>)
      modifies this
      ensures debouncedSearchTerm == old(debouncedSearchTerm)
      ensures readFault.Some? ==> error == readFault && questions == old(questions)
      ensures readFault.None? ==>
        error == None && questions == Displayed(store.docs, Some(RA), debouncedSearchTerm)
    {
      error := None;
      if readFault.Some? {
        error := readFault;
        return;
      }
      questions := Fetch(store.docs, Some(RA), debouncedSearchTerm);
    }

    /** `exportToCSV`: the list as shown. */
    function ExportCsv(): string
      reads this
    {
      ListCsv(questions)
    }
  }

  /** The list holds only Repeat-Answer records. */
  lemma OnlyRepeatAnswers(docs: seq<Record>, term: string)
    ensures forall x :: x in Displayed(docs, Some(RA), term) ==> x.kind == RA
  {
    DisplayedContents(docs, Some(RA), term);
  }

  /** Sorting is by number, not by text: `RA2` comes before `RA010`. */
  lemma NumericOrder(c1: string, c2: string)
    ensures var a := Plain(RA, "RA010", c1); var b := Plain(RA, "RA2", c2);
      Displayed([a, b], Some(RA), []) == [b, a]
  {
    var a := Plain(RA, "RA010", c1);
    var b := Plain(RA, "RA2", c2);
    ExampleKeys(c1, c2);
    assert ByKind([a, b], Some(RA)) == [a, b] by {
      assert [a, b][1..] == [b];
    }
    assert Greater(a, b);
    ExampleSort(a, b);
  }

  lemma ExampleKeys(c1: string, c2: string)
    ensures SortKey(Plain(RA, "RA010", c1)) == Some(10)
    ensures SortKey(Plain(RA, "RA2", c2)) == Some(2)
  {
    DigitsAfterPrefix("RA", "010");
    DigitsAfterPrefix("RA", "2");
    assert DecimalValue("010") == 10 by {
      assert "010"[..2] == "01" && "01"[..1] == "0" && "0"[..0] == [];
    }
    assert DecimalValue("2") == 2 by {
      assert "2"[..0] == [];
    }
  }

  lemma ExampleSort(a: Record, b: Record)
    requires Greater(a, b)
    ensures SortSeq([a, b], Greater) == [b, a]
  {
    assert [a, b][..1] == [a];
    assert [a][..0] == [];
    assert SortSeq([a], Greater) == [a];
    assert SortSeq([a, b], Greater) == Insert([a], b, Greater);
    assert Insert([a], b, Greater) == Insert([], b, Greater) + [a];
  }
}
