/** The Repeat-Sentence search form (`src/components/BulkRSSearch.tsx`): a
    comma-separated list of numbers is normalised to `#<digits> RS`
    identifiers and checked against the stored Repeat-Sentence records;
    missing identifiers can be added one at a time; the found records can be
    exported as CSV. */
module BulkRSSearch {
  import opened Strings
  import opened Records
  import opened Reconcile
  import opened Csv

  const NoNumbersError: string := "Please enter valid numbers"

  /** The stored form of an entered number: `#`, its digits, ` RS`. */
  function RsId(token: string): string {
    "#" + Digits(token) + " RS"
  }

  /** The digits are copied whole and in order, without padding. */
  lemma RsIdShape(token: string)
    ensures var d := Digits(token); var r := RsId(token);
      && |r| == |d| + 4
      && r[0] == '#' && r[|r| - 3..] == " RS"
      && r[1..|r| - 3] == d
  {
  }

  /** A token without digits becomes `# RS`. */
  lemma RsIdDigitFree(token: string)
    requires forall i :: 0 <= i < |token| ==> !IsDigit(token[i])
    ensures RsId(token) == "# RS"
  {
    DigitsOfDigitFree(token);
  }

  /** Normalising an identifier that is already normalised changes nothing. */
  lemma RsIdIdempotent(token: string)
    ensures RsId(RsId(token)) == RsId(token)
  {
    var d := Digits(token);
    DigitsAfterPrefix("#", d);
    DigitsAppend("#" + d, " RS");
    DigitsOfDigitFree(" RS");
    assert d + [] == d;
  }

  lemma RsIdExamples()
    ensures RsId("418") == "#418 RS"
    ensures RsId("12") != RsId("012")
  {
    assert Digits("418") == "418";
    assert Digits("12") == "12";
    assert Digits("012") == "012";
  }

  /** Adding a searched identifier and searching again finds the new record,
      and the identifier is no longer missing. */
  lemma AddedIsFound(docs: seq<Record>, numbers: string, selected: string, content: string)
    requires selected in SearchNumbers(numbers)
    ensures var r := Plain(RS, selected, content);
      var res := Reconciled(WhereKind(docs + [r], RS), SearchNumbers(numbers));
      r in res.existing && selected !in res.missing
  {
    var r := Plain(RS, selected, content);
    assert r in WhereKind(docs + [r], RS);
    StoredIsFound(WhereKind(docs + [r], RS), SearchNumbers(numbers), r);
  }

  /** `numberList.map(...)`: the entered tokens, normalised, in input order. */
  function SearchNumbers(numbers: string): (r: seq<string>)
    ensures |r| == |Tokens(numbers)|
    ensures forall i :: 0 <= i < |r| ==> r[i] == RsId(Tokens(numbers)[i])
  {
    var ts := Tokens(numbers);
    seq(|ts|, i requires 0 <= i < |ts| => RsId(ts[i]))
  }

  class Component {
    const store: Store
    var numbers: string
    var results: Results
    var newContent: string
    var selectedMissing: string
    var error: Option<string>

    constructor (store: Store)
      ensures this.store == store
      ensures numbers == [] && newContent == [] && selectedMissing == []
      ensures results == Results([], []) && error == None
    {
      this.store := store;
      numbers := [];
      results := Results([], []);
      newContent := [];
      selectedMissing := [];
      error := None;
    }

    /** `handleSearch`. `readFault` is the error the store raises on the
        query, if it raises one; the results are then left as they were. */
    method HandleSearch(readFault: Option<string>)
      modifies `results, `error
      ensures if Tokens(numbers) == [] then error == Some(NoNumbersError) && results == old(results)
        else if readFault.Some? then error == readFault && results == old(results)
        else error == None && results == Reconciled(WhereKind(store.docs, RS), SearchNumbers(numbers))
    {
      var numberList := Tokens(numbers);
      if |numberList| == 0 {
        error := Some(NoNumbersError);
      } else if readFault.Some? {
        error := readFault;
      } else {
        var snapshot := WhereKind(store.docs, RS);
        var searchNumbers := SearchNumbers(numbers);
        var existing, found := MatchSnapshot(snapshot, searchNumbers);
        var missing := Unmatched(searchNumbers, found);
        error := None;
        results := Results(existing, missing);
      }
    }

    /** `handleAddMissing`: with a selection and a content, stores the new
        Repeat-Sentence record, searches again and clears both fields. A
        failing write leaves everything but the error as it was. */
    method HandleAddMissing(writeFault: Option<string>, readFault: Option<string>)
      modifies `results, `error, `newContent, `selectedMissing, store
      ensures if old(selectedMissing) == [] || old(newContent) == [] then
          store.docs == old(store.docs) && results == old(results) && error == old(error)
          && selectedMissing == old(selectedMissing) && newContent == old(newContent)
        else if writeFault.Some? then
          store.docs == old(store.docs) && results == old(results) && error == writeFault
          && selectedMissing == old(selectedMissing) && newContent == old(newContent)
        else
          && store.docs == old(store.docs) + [Plain(RS, old(selectedMissing), old(newContent))]
          && selectedMissing == [] && newContent == []
          && if Tokens(numbers) == [] then error == Some(NoNumbersError) && results == old(results)
             else if readFault.Some? then error == readFault && results == old(results)
             else error == None && results == Reconciled(WhereKind(store.docs, RS), SearchNumbers(numbers))
    {
      if selectedMissing != [] && newContent != [] {
        var ok := store.AddDoc(Plain(RS, selectedMissing, newContent), writeFault);
        if !ok {
          error := writeFault;
        } else {
          // The refresh reads neither cleared field, so clearing them before
          // it leaves the same state as clearing them after it.
          newContent := [];
          selectedMissing := [];
          HandleSearch(readFault);
        }
      }
    }

    /** The export button: the found records as a search CSV. */
    function ExportCsv(): string
      reads this
    {
      SearchCsv(results.existing)
    }
  }
}
