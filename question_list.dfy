/** The question list (`src/components/QuestionList.tsx`): all stored
    records, or those of one type, narrowed by a search term and sorted by
    the number in their identifier; exportable as CSV. */
module QuestionList {
  import opened Strings
  import opened Records
  import opened ListView
  import opened Csv

  class Component {
    const store: Store
    /** The `filter` property: a type, or none for every record. */
    const filter: Option<Kind>
    var debouncedSearchTerm: string
    var questions: seq<Record>
    var error: Option<string>

    constructor (store: Store, filter: Option<Kind>)
      ensures this.store == store && this.filter == filter
      ensures debouncedSearchTerm == [] && questions == [] && error == None
    {
      this.store := store;
      this.filter := filter;
      debouncedSearchTerm := [];
      questions := [];
      error := None;
    }

    /** `fetchQuestions`. `readFault` is the error the store raises on the
        read, if it raises one; the list is then left as it was. */
    method FetchQuestions(readFault: Option<string>)
      modifies this
      ensures debouncedSearchTerm == old(debouncedSearchTerm)
      ensures readFault.Some? ==> error == readFault && questions == old(questions)
      ensures readFault.None? ==>
        error == None && questions == Displayed(store.docs, filter, debouncedSearchTerm)
    {
      error := None;
      if readFault.Some? {
        error := readFault;
        return;
      }
      questions := Fetch(store.docs, filter, debouncedSearchTerm);
    }

    /** `exportToCSV`: the list as shown. */
    function ExportCsv(): string
      reads this
    {
      ListCsv(questions)
    }
  }

  /** Without a type or a term the list shows every stored record, in some
      order, each as often as it is stored. */
  lemma UnfilteredShowsAll(docs: seq<Record>)
    ensures multiset(Displayed(docs, None, [])) == multiset(docs)
  {
    DisplayedContents(docs, None, []);
  }

  /** The export has one line per record shown, in the order shown, after
      the header. */
  lemma ExportFollowsList(questions: seq<Record>)
    requires forall i :: 0 <= i < |questions| ==> OneLine(questions[i])
    ensures var lines := Split(ListCsv(questions), '\n');
      |lines| == |questions| + 1 && lines[0] == ListHeader
      && forall i :: 0 <= i < |questions| ==> lines[i + 1] == ListRow(questions[i])
  {
    ListCsvLines(questions);
  }
}
