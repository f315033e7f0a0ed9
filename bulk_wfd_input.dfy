/** The dictation search form (`src/components/BulkWFDInput.tsx`): only
    entered tokens that read as `WFD` numbers are kept, each is looked up by
    its `WFDNo` on its own, and missing ones can be added. */
module BulkWFDInput {
  import opened Strings
  import opened Records

  const NoNumbersError: string := "Please enter valid WFD numbers"

  /** `n && n.toUpperCase().startsWith('WFD')`. */
  predicate IsWfdToken(t: string) {
    t != [] && StartsWith(Upper(t), "WFD")
  }

  /** The trimmed tokens that read as `WFD` numbers, in input order and in
      the case they were typed. */
  function NumberList(numbers: string): (r: seq<string>)
    ensures forall t :: t in r <==> t in TrimAll(Split(numbers, ',')) && IsWfdToken(t)
  {
    Filter(TrimAll(Split(numbers, ',')), IsWfdToken)
  }

  /** One query `where('WFDNo', '==', t)`: its first record, if it has one. */
  function Lookup(docs: seq<Record>, t: string): (r: Option<Record>)
    ensures r.Some? ==> r.value in docs && r.value.wfdNo == Some(t)
  {
    var q := WhereWFDNo(docs, t);
    if q == [] then None
    else
      assert q[0] in q;
      Some(q[0])
  }

  /** A lookup finds nothing exactly when no record carries the number, and
      otherwise finds the first record in store order that does. */
  lemma LookupFirst(docs: seq<Record>, t: string)
    ensures Lookup(docs, t).None? <==> !exists x :: x in docs && x.wfdNo == Some(t)
    ensures Lookup(docs, t).Some? ==> exists i :: (0 <= i < |docs| && Lookup(docs, t).value == docs[i]
                                                   && forall j :: 0 <= j < i ==> docs[j].wfdNo != Some(t))
  {
    if WhereWFDNo(docs, t) != [] {
      var i := FilterFirst(docs, (x: Record) => x.wfdNo == Some(t));
    }
  }

  /** A token's lookup, as a function of the token. */
  function LookupIn(docs: seq<Record>): string -> Option<Record> {
    (t: string) => Lookup(docs, t)
  }

  /** A token that has no record, as a function of the token. */
  function AbsentIn(docs: seq<Record>): string -> Option<string> {
    (t: string) => if Lookup(docs, t).None? then Some(t) else None
  }

  /** The records found, one per token that has one, in token order. */
  function Found(docs: seq<Record>, ts: seq<string>): (r: seq<Record>)
    ensures |r| <= |ts|
  {
    Collect(ts, LookupIn(docs))
  }

  /** The tokens without a record, in token order. */
  function Missing(docs: seq<Record>, ts: seq<string>): (r: seq<string>)
    ensures |r| <= |ts|
  {
    Collect(ts, AbsentIn(docs))
  }

  /** The `for` loop: one lookup per token. `readFault` fails the lookup of
      one token; the loop then stops and nothing is shown. */
  method LookupEach(docs: seq<Record>, numberList: seq<string>, readFault: StoreFault)
    returns (outcome: Outcome)
    ensures readFault.Reach(|numberList|) < |numberList| ==> outcome == Failed(readFault.message)
    ensures readFault.Reach(|numberList|) == |numberList| ==>
      outcome == Shown(Results(Found(docs, numberList), Missing(docs, numberList)))
    ensures outcome.Shown? ==> |outcome.results.existing| + |outcome.results.missing| == |numberList|
  {
    var existing: seq<Record> := [];
    var missing: seq<string> := [];
    for i := 0 to |numberList|
      invariant readFault.Reach(|numberList|) >= i
      invariant existing == Found(docs, numberList[..i])
      invariant missing == Missing(docs, numberList[..i])
    {
      if readFault.At(i).Some? {
        return Failed(readFault.message);
      }
      LookupStep(docs, numberList, i);
      var querySnapshot := Lookup(docs, numberList[i]);
      if querySnapshot.Some? {
        existing := existing + [querySnapshot.value];
      } else {
        missing := missing + [numberList[i]];
      }
    }
    assert numberList[..|numberList|] == numberList;
    FoundMissingCount(docs, numberList);
    outcome := Shown(Results(existing, missing));
  }

  lemma LookupStep(docs: seq<Record>, ts: seq<string>, i: nat)
    requires i < |ts|
    ensures Found(docs, ts[..i + 1])
      == Found(docs, ts[..i]) + if Lookup(docs, ts[i]).Some? then [Lookup(docs, ts[i]).value] else []
    ensures Missing(docs, ts[..i + 1])
      == Missing(docs, ts[..i]) + if Lookup(docs, ts[i]).Some? then [] else [ts[i]]
  {
    assert ts[..i + 1] == ts[..i] + [ts[i]];
    LookupAppend(docs, ts[..i], [ts[i]]);
  }

  /** Each token lands in exactly one of found and missing. */
  lemma {:induction false} FoundMissingCount(docs: seq<Record>, ts: seq<string>)
    ensures |Found(docs, ts)| + |Missing(docs, ts)| == |ts|
  {
    if ts != [] {
      FoundMissingCount(docs, ts[1..]);
    }
  }

  /** A token is missing exactly when no stored record has it as `WFDNo`. */
  lemma {:induction false} MissingIff(docs: seq<Record>, ts: seq<string>, t: string)
    ensures t in Missing(docs, ts) <==> t in ts && !exists x :: x in docs && x.wfdNo == Some(t)
  {
    LookupFirst(docs, t);
    if ts != [] {
      MissingIff(docs, ts[1..], t);
      assert ts == [ts[0]] + ts[1..];
    }
  }

  /** A missing token is listed as often as it was entered. */
  lemma {:induction false} MissingRepeats(docs: seq<Record>, ts: seq<string>, t: string)
    requires Lookup(docs, t).None?
    ensures multiset(Missing(docs, ts))[t] == multiset(ts)[t]
  {
    if ts != [] {
      MissingRepeats(docs, ts[1..], t);
      assert ts == [ts[0]] + ts[1..];
    }
  }

  /** A found token contributes its record exactly once per time it was
      entered, and no other token contributes it. */
  lemma {:induction false} FoundRepeats(docs: seq<Record>, ts: seq<string>, t: string, r: Record)
    requires Lookup(docs, t) == Some(r)
    ensures multiset(Found(docs, ts))[r] == multiset(ts)[t]
  {
    if ts != [] {
      FoundRepeats(docs, ts[1..], t, r);
      assert ts == [ts[0]] + ts[1..];
      LookupAppend(docs, [ts[0]], ts[1..]);
      if Lookup(docs, ts[0]).Some? && Lookup(docs, ts[0]).value == r {
        // the record's own `WFDNo` names the only token that finds it
        assert ts[0] == t;
      }
    }
  }

  /** Lookups keep token order: the tokens in two parts give the results of
      the first part, then those of the second. */
  lemma LookupAppend(docs: seq<Record>, a: seq<string>, b: seq<string>)
    ensures Found(docs, a + b) == Found(docs, a) + Found(docs, b)
    ensures Missing(docs, a + b) == Missing(docs, a) + Missing(docs, b)
  {
    CollectAppend(a, b, LookupIn(docs));
    CollectAppend(a, b, AbsentIn(docs));
  }

  /** The record the add form stores. */
  function MissingRecord(selected: string, content: string): Record {
    Record(WFD, selected, content, Some(selected), None)
  }

  class Component {
    const store: Store
    var numbers: string
    var results: Results
    var newContent: string
    var selectedMissing: string
    var error: Option<string>

    constructor (store: Store)
      ensures this.store == store
      ensures numbers == [] && newContent == [] && selectedMissing == []
      ensures results == Results([], []) && error == None
    {
      this.store := store;
      numbers := [];
      results := Results([], []);
      newContent := [];
      selectedMissing := [];
      error := None;
    }

    /** `handleSearch`: the error when no token is kept, otherwise one lookup
        per token; a failed lookup sets the error and leaves the results. */
    method HandleSearch(readFault: StoreFault)
      modifies `results, `error
      ensures var ns := NumberList(numbers);
        if ns == [] then error == Some(NoNumbersError) && results == old(results)
        else if readFault.Reach(|ns|) < |ns| then error == Some(readFault.message) && results == old(results)
        else error == None && results == Results(Found(store.docs, ns), Missing(store.docs, ns))
    {
      var numberList := NumberList(numbers);
      if |numberList| == 0 {
        error := Some(NoNumbersError);
      } else {
        var outcome := LookupEach(store.docs, numberList, readFault);
        match outcome
        case Failed(message) =>
          error := Some(message);
        case Shown(r) =>
          error := None;
          results := r;
      }
    }

    /** `handleAddMissing`: with a selection and a content, stores a
        dictation record whose identifier and `WFDNo` are the selection,
        searches again and clears both fields. */
    method HandleAddMissing(writeFault: Option<string>, readFault: StoreFault)
      modifies `results, `error, `newContent, `selectedMissing, store
      ensures if old(selectedMissing) == [] || old(newContent) == [] then
          store.docs == old(store.docs) && results == old(results) && error == old(error)
          && selectedMissing == old(selectedMissing) && newContent == old(newContent)
        else if writeFault.Some? then
          store.docs == old(store.docs) && results == old(results) && error == writeFault
          && selectedMissing == old(selectedMissing) && newContent == old(newContent)
        else
          && store.docs == old(store.docs) + [MissingRecord(old(selectedMissing), old(newContent))]
          && selectedMissing == [] && newContent == []
          && var ns := NumberList(numbers);
             if ns == [] then error == Some(NoNumbersError) && results == old(results)
             else if readFault.Reach(|ns|) < |ns| then error == Some(readFault.message) && results == old(results)
             else error == None && results == Results(Found(store.docs, ns), Missing(store.docs, ns))
    {
      if selectedMissing != [] && newContent != [] {
        var ok := store.AddDoc(MissingRecord(selectedMissing, newContent), writeFault);
        if !ok {
          error := writeFault;
        } else {
          // The refresh reads neither cleared field, so clearing them before
          // it leaves the same state as clearing them after it.
          newContent := [];
          selectedMissing := [];
          HandleSearch(readFault);
        }
      }
    }
  }

  /** Once the add form has stored a selection, searching for it finds the
      stored record or an earlier one with the same `WFDNo`, never missing. */
  lemma AddedIsFound(docs: seq<Record>, selected: string, content: string)
    ensures Lookup(docs + [MissingRecord(selected, content)], selected).Some?
  {
    assert MissingRecord(selected, content) in docs + [MissingRecord(selected, content)];
    LookupFirst(docs + [MissingRecord(selected, content)], selected);
  }
}
