/** The Repeat-Answer search form (`src/components/BulkRASearch.tsx`): a
    comma-separated list of numbers is normalised to `RA` identifiers and
    checked against the stored Repeat-Answer records; missing identifiers can
    be added one at a time; the found records can be exported as CSV. */
module BulkRASearch {
  import opened Strings
  import opened Records
  import opened Reconcile
  import opened Csv

  const NoNumbersError: string := "Please enter valid numbers"

  /** The stored form of an entered number: `RA` and its digits, left-padded
      with zeros to three places. */
  function RaId(token: string): string {
    "RA" + PadStart(Digits(token), 3, '0')
  }

  /** The shape of `RaId`: `RA`, then zeros, then every digit of the token in
      order; the digits are never cut, and at least three are written. */
  lemma RaIdShape(token: string)
    ensures var d := Digits(token); var r := RaId(token);
      && r[..2] == "RA"
      && |r| == 2 + (if |d| >= 3 then |d| else 3)
      && AllDigits(r[2..])
      && r[|r| - |d|..] == d
      && (forall j :: 2 <= j < |r| - |d| ==> r[j] == '0')
  {
    var d := Digits(token);
    var p := PadStart(d, 3, '0');
    var r := RaId(token);
    PadShape(d);
    PaddedDigits(d);
    assert r[..2] == "RA" && r[2..] == p;
    assert r[|r| - |d|..] == p[|p| - |d|..];
    forall j | 2 <= j < |r| - |d| ensures r[j] == '0' {
      assert r[j] == p[j - 2];
    }
  }

  /** Padding to three places puts zeros in front and keeps the digits whole. */
  lemma PadShape(d: string)
    ensures var p := PadStart(d, 3, '0');
      && |p| == (if |d| >= 3 then |d| else 3)
      && p[|p| - |d|..] == d
      && forall j :: 0 <= j < |p| - |d| ==> p[j] == '0'
  {
    var p := PadStart(d, 3, '0');
    if |d| < 3 {
      var zeros := seq(3 - |d|, _ => '0');
      assert p == zeros + d;
      assert p[|p| - |d|..] == d;
    }
  }

  /** A token without digits becomes `RA000`. */
  lemma RaIdDigitFree(token: string)
    requires forall i :: 0 <= i < |token| ==> !IsDigit(token[i])
    ensures RaId(token) == "RA000"
  {
    DigitsOfDigitFree(token);
  }

  /** Normalising an identifier that is already normalised changes nothing. */
  lemma RaIdIdempotent(token: string)
    ensures RaId(RaId(token)) == RaId(token)
  {
    var p := PadStart(Digits(token), 3, '0');
    PaddedDigits(Digits(token));
    DigitsAfterPrefix("RA", p);
    assert RaId(token) == "RA" + p;
  }

  /** Padding a numeral with zeros gives a numeral of at least three digits. */
  lemma PaddedDigits(d: string)
    requires AllDigits(d)
    ensures var p := PadStart(d, 3, '0'); AllDigits(p) && |p| >= 3
  {
  }

  /** A short number is padded to three digits. */
  lemma RaIdPadsShort()
    ensures RaId("7") == "RA007"
  {
    assert Digits("7") == "7";
    assert PadStart("7", 3, '0') == "007";
  }

  /** A long identifier keeps all its digits. */
  lemma RaIdKeepsLong()
    ensures RaId("RA1200") == "RA1200"
  {
    var prefix, d := "RA", "1200";
    assert !IsDigit(prefix[0]) && !IsDigit(prefix[1]);
    assert AllDigits(d) by {
      assert IsDigit(d[0]) && IsDigit(d[1]) && IsDigit(d[2]) && IsDigit(d[3]);
    }
    DigitsAfterPrefix(prefix, d);
    assert "RA1200" == prefix + d;
    assert PadStart(d, 3, '0') == d;
  }

  /** Letters and spaces around the digits are dropped, whatever their case. */
  lemma RaIdDropsLetters()
    ensures RaId("ra 42") == "RA042"
  {
    assert Digits("ra 42") == "42" by {
      var prefix, d := "ra ", "42";
      assert !IsDigit(prefix[0]) && !IsDigit(prefix[1]) && !IsDigit(prefix[2]);
      assert AllDigits(d) by {
        assert IsDigit(d[0]) && IsDigit(d[1]);
      }
      DigitsAfterPrefix(prefix, d);
      assert "ra 42" == prefix + d;
    }
    assert PadStart("42", 3, '0') == "042" by {
      assert seq(1, _ => '0') == "0";
    }
  }

  /** Adding a searched identifier and searching again finds the new record,
      and the identifier is no longer missing. */
  lemma AddedIsFound(docs: seq<Record>, numbers: string, selected: string, content: string)
    requires selected in SearchNumbers(numbers)
    ensures var r := Plain(RA, selected, content);
      var res := Reconciled(WhereKind(docs + [r], RA), SearchNumbers(numbers));
      r in res.existing && selected !in res.missing
  {
    var r := Plain(RA, selected, content);
    assert r in WhereKind(docs + [r], RA);
    StoredIsFound(WhereKind(docs + [r], RA), SearchNumbers(numbers), r);
  }

  /** `numberList.map(...)`: the entered tokens, normalised, in input order. */
  function SearchNumbers(numbers: string): (r: seq<string>)
    ensures |r| == |Tokens(numbers)|
    ensures forall i :: 0 <= i < |r| ==> r[i] == RaId(Tokens(numbers)[i])
  {
    var ts := Tokens(numbers);
    seq(|ts|, i requires 0 <= i < |ts| => RaId(ts[i]))
  }

  class Component {
    const store: Store
    var numbers: string
    var results: Results
    var newContent: string
    var selectedMissing: string
    var error: Option<string>

    constructor (store: Store)
      ensures this.store == store
      ensures numbers == [] && newContent == [] && selectedMissing == []
      ensures results == Results([], []) && error == None
    {
      this.store := store;
      numbers := [];
      results := Results([], []);
      newContent := [];
      selectedMissing := [];
      error := None;
    }

    /** `handleSearch`. `readFault` is the error the store raises on the
        query, if it raises one; the results are then left as they were. */
    method HandleSearch(readFault: Option<string>)
      modifies `results, `error
      ensures if Tokens(numbers) == [] then error == Some(NoNumbersError) && results == old(results)
        else if readFault.Some? then error == readFault && results == old(results)
        else error == None && results == Reconciled(WhereKind(store.docs, RA), SearchNumbers(numbers))
    {
      var numberList := Tokens(numbers);
      if |numberList| == 0 {
        error := Some(NoNumbersError);
      } else if readFault.Some? {
        error := readFault;
      } else {
        var snapshot := WhereKind(store.docs, RA);
        var searchNumbers := SearchNumbers(numbers);
        var existing, found := MatchSnapshot(snapshot, searchNumbers);
        var missing := Unmatched(searchNumbers, found);
        error := None;
        results := Results(existing, missing);
      }
    }

    /** `handleAddMissing`: with a selection and a content, stores the new
        Repeat-Answer record, searches again and clears both fields. A failing
        write leaves everything but the error as it was. */
    method HandleAddMissing(writeFault: Option<string>, readFault: Option<string>)
      modifies `results, `error, `newContent, `selectedMissing, store
      ensures if old(selectedMissing) == [] || old(newContent) == [] then
          store.docs == old(store.docs) && results == old(results) && error == old(error)
          && selectedMissing == old(selectedMissing) && newContent == old(newContent)
        else if writeFault.Some? then
          store.docs == old(store.docs) && results == old(results) && error == writeFault
          && selectedMissing == old(selectedMissing) && newContent == old(newContent)
        else
          && store.docs == old(store.docs) + [Plain(RA, old(selectedMissing), old(newContent))]
          && selectedMissing == [] && newContent == []
          && if Tokens(numbers) == [] then error == Some(NoNumbersError) && results == old(results)
             else if readFault.Some? then error == readFault && results == old(results)
             else error == None && results == Reconciled(WhereKind(store.docs, RA), SearchNumbers(numbers))
    {
      if selectedMissing != [] && newContent != [] {
        var ok := store.AddDoc(Plain(RA, selectedMissing, newContent), writeFault);
        if !ok {
          error := writeFault;
        } else {
          // The refresh reads neither cleared field, so clearing them before
          // it leaves the same state as clearing them after it.
          newContent := [];
          selectedMissing := [];
          HandleSearch(readFault);
        }
      }
    }

    /** The export button: the found records as a search CSV. */
    function ExportCsv(): string
      reads this
    {
      SearchCsv(results.existing)
    }
  }
}
