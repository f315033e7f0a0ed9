/** The mixed search form (`src/components/BulkQuestionInput.tsx`): entered
    tokens are upper-cased and routed to a Write-From-Dictation list or a
    Repeat-Sentence list; the first is matched against the stored dictation
    records by their `WFDNo`, the second by a membership query on `RSNo`. */
module BulkQuestionInput {
  import opened Strings
  import opened Records
  import opened Reconcile
  import opened Csv

  const NoNumbersError: string := "Please enter valid question numbers"

  function UpperAll(parts: seq<string>): (r: seq<string>)
    ensures |r| == |parts|
    ensures forall i :: 0 <= i < |r| ==> r[i] == Upper(parts[i])
  {
    seq(|parts|, i requires 0 <= i < |parts| => Upper(parts[i]))
  }

  /** `numbers.split(',').map(n => n.trim().toUpperCase()).filter(n => n)`. */
  function NumberList(numbers: string): (r: seq<string>)
    ensures forall t :: t in r ==> t != []
  {
    NonEmpty(UpperAll(TrimAll(Split(numbers, ','))))
  }

  /** The kept tokens are exactly the trimmed, upper-cased pieces that are not
      empty. */
  lemma NumberListTokens(numbers: string)
    ensures forall t :: t in NumberList(numbers) <==> t in UpperAll(TrimAll(Split(numbers, ','))) && t != []
  {
  }

  /** The tokens of two entries joined by a comma are the tokens of the first,
      then those of the second: input order is kept. */
  lemma NumberListAppend(a: string, b: string)
    ensures NumberList(a + "," + b) == NumberList(a) + NumberList(b)
  {
    assert a + "," + b == a + [','] + b;
    SplitAppend(a, b, ',');
    var ta, tb := TrimAll(Split(a, ',')), TrimAll(Split(b, ','));
    TrimAllAppend(Split(a, ','), Split(b, ','));
    UpperAllAppend(ta, tb);
    NonEmptyAppend(UpperAll(ta), UpperAll(tb));
  }

  lemma UpperAllAppend(a: seq<string>, b: seq<string>)
    ensures UpperAll(a + b) == UpperAll(a) + UpperAll(b)
  {
    var l, r := UpperAll(a + b), UpperAll(a) + UpperAll(b);
    forall i | 0 <= i < |l| ensures l[i] == r[i] {
      if i >= |a| {
        assert (a + b)[i] == b[i - |a|];
      }
    }
  }

  /** Where one token goes. */
  datatype Route = ToWfd(id: string) | ToRs(id: string) | Dropped

  /** One pass of the classification loop: a `WFD` prefix is checked first,
      then an `RS` prefix; any other token becomes `WFD` and its digits, and
      is dropped when it has none. */
  function RouteOf(num: string): Route {
    if StartsWith(num, "WFD") then ToWfd(num)
    else if StartsWith(num, "RS") then ToRs(num)
    else if Digits(num) != [] then ToWfd("WFD" + Digits(num))
    else Dropped
  }

  /** The dictation search numbers, in input order. */
  function WfdList(nums: seq<string>): (r: seq<string>)
    ensures |r| <= |nums|
    ensures forall i :: 0 <= i < |r| ==> StartsWith(r[i], "WFD")
  {
    if nums == [] then []
    else
      var rest := WfdList(nums[..|nums| - 1]);
      match RouteOf(nums[|nums| - 1])
      case ToWfd(id) => rest + [id]
      case _ => rest
  }

  /** The sentence search numbers, in input order. */
  function RsList(nums: seq<string>): (r: seq<string>)
    ensures |r| <= |nums|
    ensures forall i :: 0 <= i < |r| ==> StartsWith(r[i], "RS") && !StartsWith(r[i], "WFD")
  {
    if nums == [] then []
    else
      var rest := RsList(nums[..|nums| - 1]);
      match RouteOf(nums[|nums| - 1])
      case ToRs(id) => rest + [id]
      case _ => rest
  }

  /** The `for` loop over the tokens. */
  method Classify(numberList: seq<string>) returns (wfdNumbers: seq<string>, rsNumbers: seq<string>)
    ensures wfdNumbers == WfdList(numberList)
    ensures rsNumbers == RsList(numberList)
  {
    wfdNumbers := [];
    rsNumbers := [];
    for i := 0 to |numberList|
      invariant wfdNumbers == WfdList(numberList[..i])
      invariant rsNumbers == RsList(numberList[..i])
    {
      assert numberList[..i + 1][..i] == numberList[..i];
      var num := numberList[i];
      if StartsWith(num, "WFD") {
        wfdNumbers := wfdNumbers + [num];
      } else if StartsWith(num, "RS") {
        rsNumbers := rsNumbers + [num];
      } else {
        var numericOnly := Digits(num);
        if numericOnly != [] {
          wfdNumbers := wfdNumbers + ["WFD" + numericOnly];
        }
      }
    }
    assert numberList[..|numberList|] == numberList;
  }

  /** Every token reaches the list its route names, and the lists are the
      tokens' routes in input order, so nothing but a dropped token is lost. */
  lemma {:induction false} ClassifyCovers(nums: seq<string>)
    ensures forall i :: 0 <= i < |nums| && RouteOf(nums[i]).ToWfd? ==> RouteOf(nums[i]).id in WfdList(nums)
    ensures forall i :: 0 <= i < |nums| && RouteOf(nums[i]).ToRs? ==> nums[i] in RsList(nums)
  {
    if nums != [] {
      var init := nums[..|nums| - 1];
      ClassifyCovers(init);
      forall i | 0 <= i < |nums| - 1
        ensures RouteOf(nums[i]) == RouteOf(init[i])
      {
      }
    }
  }

  /** Classification of a concatenation is the concatenation of the
      classifications: the lists keep input order. */
  lemma {:induction false} ClassifyAppend(a: seq<string>, b: seq<string>)
    ensures WfdList(a + b) == WfdList(a) + WfdList(b)
    ensures RsList(a + b) == RsList(a) + RsList(b)
    decreases |b|
  {
    if b == [] {
      assert a + b == a;
    } else {
      var b' := b[..|b| - 1];
      assert (a + b)[..|a + b| - 1] == a + b';
      ClassifyAppend(a, b');
    }
  }

  /** Only a token with neither prefix and no digit is dropped. */
  lemma ClassifyDrops(num: string)
    ensures RouteOf(num) == Dropped <==>
      !StartsWith(num, "WFD") && !StartsWith(num, "RS") && forall i :: 0 <= i < |num| ==> !IsDigit(num[i])
  {
    if !StartsWith(num, "WFD") && !StartsWith(num, "RS") {
      if forall i :: 0 <= i < |num| ==> !IsDigit(num[i]) {
        DigitsOfDigitFree(num);
      } else {
        var i :| 0 <= i < |num| && IsDigit(num[i]);
        DigitsKeepsDigit(num, i);
      }
    }
  }

  lemma {:induction false} DigitsKeepsDigit(s: string, i: nat)
    requires i < |s| && IsDigit(s[i])
    ensures Digits(s) != []
  {
    if i > 0 {
      DigitsKeepsDigit(s[1..], i - 1);
    }
  }

  /** `s.startsWith('WFD') ? s : 'WFD' + s`. */
  function PrefixWfd(s: string): (r: string)
    ensures StartsWith(r, "WFD")
    ensures StartsWith(s, "WFD") ==> r == s
  {
    if StartsWith(s, "WFD") then s else "WFD" + s
  }

  /** Prefixing twice is prefixing once, and the dictation list is left as it
      is: its entries already carry the prefix. */
  lemma PrefixWfdIdempotent(s: string)
    ensures PrefixWfd(PrefixWfd(s)) == PrefixWfd(s)
  {
  }

  function PrefixAll(nums: seq<string>): (r: seq<string>)
    ensures |r| == |nums|
    ensures forall i :: 0 <= i < |r| ==> r[i] == PrefixWfd(nums[i])
  {
    seq(|nums|, i requires 0 <= i < |nums| => PrefixWfd(nums[i]))
  }

  lemma PrefixAllWfdList(nums: seq<string>)
    ensures PrefixAll(WfdList(nums)) == WfdList(nums)
  {
  }

  /** The key a stored dictation record is compared by: its `WFDNo`, read as
      empty when absent, with the prefix added if missing. */
  function WfdKey(r: Record): string {
    PrefixWfd(r.wfdNo.GetOr(""))
  }

  function WfdKeys(rs: seq<Record>): set<string> {
    set x | x in rs :: WfdKey(x)
  }

  function KeyIn(keys: seq<string>): Record -> bool {
    (x: Record) => WfdKey(x) in keys
  }

  /** The stored records whose key is among the prefixed search numbers, in
      store order. */
  function WfdMatching(snapshot: seq<Record>, wfdNumbers: seq<string>): (r: seq<Record>)
    ensures forall x :: x in r <==> x in snapshot && WfdKey(x) in PrefixAll(wfdNumbers)
  {
    Filter(snapshot, KeyIn(PrefixAll(wfdNumbers)))
  }

  /** The `forEach` over the dictation snapshot: a record is pushed, and its
      key noted as found, when its key meets a search number. */
  method MatchWfd(snapshot: seq<Record>, wfdNumbers: seq<string>)
    returns (existing: seq<Record>, found: set<string>)
    ensures existing == WfdMatching(snapshot, wfdNumbers)
    ensures found == WfdKeys(existing)
  {
    existing := [];
    found := {};
    for i := 0 to |snapshot|
      invariant existing == WfdMatching(snapshot[..i], wfdNumbers)
      invariant found == WfdKeys(existing)
    {
      WfdMatchingStep(snapshot, i, wfdNumbers);
      var searchWfdNo := WfdKey(snapshot[i]);
      var hit := Meets(searchWfdNo, wfdNumbers);
      if hit {
        WfdKeysPush(existing, snapshot[i]);
        existing := existing + [snapshot[i]];
        found := found + {searchWfdNo};
      }
    }
    assert snapshot[..|snapshot|] == snapshot;
  }

  /** The inner `for` loop: it stops at the first search number whose
      prefixed form equals the key. */
  method Meets(key: string, wfdNumbers: seq<string>) returns (hit: bool)
    ensures hit <==> key in PrefixAll(wfdNumbers)
  {
    hit := false;
    var j := 0;
    while j < |wfdNumbers|
      invariant 0 <= j <= |wfdNumbers|
      invariant forall m :: 0 <= m < j ==> PrefixWfd(wfdNumbers[m]) != key
    {
      var normalizedSearchNum := PrefixWfd(wfdNumbers[j]);
      if key == normalizedSearchNum {
        hit := true;
        break;
      }
      j := j + 1;
    }
  }

  lemma WfdMatchingStep(snapshot: seq<Record>, i: nat, wfdNumbers: seq<string>)
    requires i < |snapshot|
    ensures WfdMatching(snapshot[..i + 1], wfdNumbers)
         == WfdMatching(snapshot[..i], wfdNumbers)
            + if WfdKey(snapshot[i]) in PrefixAll(wfdNumbers) then [snapshot[i]] else []
  {
    FilterSnoc(snapshot, i, KeyIn(PrefixAll(wfdNumbers)));
  }

  lemma WfdKeysPush(rs: seq<Record>, x: Record)
    ensures WfdKeys(rs + [x]) == WfdKeys(rs) + {WfdKey(x)}
  {
  }

  /** Each stored record is found at most once, however many search numbers
      it meets. */
  lemma WfdFoundOnce(snapshot: seq<Record>, wfdNumbers: seq<string>, x: Record)
    ensures multiset(WfdMatching(snapshot, wfdNumbers))[x] <= multiset(snapshot)[x]
  {
    FilterCount(snapshot, KeyIn(PrefixAll(wfdNumbers)), x);
  }

  /** Every prefixed search number is either the key of a found record or
      missing, never both; missing keeps the input order and repeats. */
  lemma WfdPartition(snapshot: seq<Record>, wfdNumbers: seq<string>, k: string)
    requires k in PrefixAll(wfdNumbers)
    ensures var existing := WfdMatching(snapshot, wfdNumbers);
      var missing := Unmatched(PrefixAll(wfdNumbers), WfdKeys(existing));
      (exists x :: x in existing && WfdKey(x) == k) <==> k !in missing
  {
    var existing := WfdMatching(snapshot, wfdNumbers);
    if k !in Unmatched(PrefixAll(wfdNumbers), WfdKeys(existing)) {
      assert k in WfdKeys(existing);
    }
  }

  /** The `RSNo` values of the records a membership query returned. */
  function RsNos(rs: seq<Record>): set<string> {
    set x | x in rs && x.rsNo.Some? :: x.rsNo.value
  }

  /** A sentence search number is missing exactly when no stored record
      carries it as `RSNo`. */
  lemma RsPartition(docs: seq<Record>, rsNumbers: seq<string>, t: string)
    requires t in rsNumbers
    ensures var found := WhereRSNoIn(docs, rsNumbers);
      t in Unmatched(rsNumbers, RsNos(found)) <==> !exists x :: x in docs && x.rsNo == Some(t)
  {
    var found := WhereRSNoIn(docs, rsNumbers);
    if exists x :: x in docs && x.rsNo == Some(t) {
      var x :| x in docs && x.rsNo == Some(t);
      assert x in found;
      assert t in RsNos(found);
    }
  }

  /** What the dictation branch contributes: nothing when there are no
      dictation numbers, otherwise the matching records and the prefixed
      numbers no record met. */
  function WfdFound(docs: seq<Record>, wfd: seq<string>): Results {
    if wfd == [] then Results([], [])
    else
      var e := WfdMatching(WhereKind(docs, WFD), wfd);
      Results(e, Unmatched(PrefixAll(wfd), WfdKeys(e)))
  }

  /** What the sentence branch contributes: nothing when there are no
      sentence numbers, otherwise every record the membership query returned
      and the numbers no record carries. */
  function RsFound(docs: seq<Record>, rs: seq<string>): Results {
    if rs == [] then Results([], [])
    else
      var e := WhereRSNoIn(docs, rs);
      Results(e, Unmatched(rs, RsNos(e)))
  }

  /** What a search shows: the dictation matches, then every record the
      membership query returned; the dictation misses, then the sentence
      misses. */
  function Searched(docs: seq<Record>, numberList: seq<string>): Results {
    var w := WfdFound(docs, WfdList(numberList));
    var r := RsFound(docs, RsList(numberList));
    Results(w.existing + r.existing, w.missing + r.missing)
  }

  /** The record the add form stores: typed as a sentence exactly when the
      upper-cased selection starts with `RS`, and a dictation otherwise, with
      the identifier copied to the matching number field. */
  function MissingRecord(selected: string, content: string): (r: Record)
    ensures r.questionNo == selected && r.content == content
    ensures r.kind == RS <==> StartsWith(Upper(selected), "RS")
    ensures r.kind == WFD <==> !StartsWith(Upper(selected), "RS")
    ensures r.kind == WFD ==> r.wfdNo == Some(selected) && r.rsNo == None
    ensures r.kind == RS ==> r.rsNo == Some(selected) && r.wfdNo == None
  {
    var upper := Upper(selected);
    var isWfd := StartsWith(upper, "WFD") || !StartsWith(upper, "RS");
    assert StartsWith(upper, "WFD") ==> upper[0] == 'W';
    if isWfd then Record(WFD, selected, content, Some(selected), None)
    else Record(RS, selected, content, None, Some(selected))
  }

  /** An added record is exported under the identifier it was added with. */
  lemma AddedExportsSelection(selected: string, content: string)
    ensures ExportedNo(MissingRecord(selected, content)) == selected
  {
    var r := MissingRecord(selected, content);
    assert r.kind == WFD || r.kind == RS;
  }

  /** The body of `handleSearch` once the entry is known not to be empty:
      classify, query the dictation records when there are dictation numbers,
      run the membership query when there are sentence numbers. */
  method Search(docs: seq<Record>, numberList: seq<string>, wfdFault: Option<string>, rsFault: Option<string>)
    returns (outcome: Outcome)
    ensures if WfdList(numberList) != [] && wfdFault.Some? then outcome == Failed(wfdFault.value)
      else if RsList(numberList) != [] && rsFault.Some? then outcome == Failed(rsFault.value)
      else outcome == Shown(Searched(docs, numberList))
  {
    var existing: seq<Record> := [];
    var missing: seq<string> := [];
    var wfdNumbers, rsNumbers := Classify(numberList);
    if |wfdNumbers| > 0 && wfdFault.Some? {
      outcome := Failed(wfdFault.value);
    } else if |rsNumbers| > 0 && rsFault.Some? {
      outcome := Failed(rsFault.value);
    } else {
      if |wfdNumbers| > 0 {
        var wfdExisting, foundWfds := MatchWfd(WhereKind(docs, WFD), wfdNumbers);
        existing := wfdExisting;
        missing := Unmatched(PrefixAll(wfdNumbers), foundWfds);
      }
      assert Results(existing, missing) == WfdFound(docs, wfdNumbers);
      if |rsNumbers| > 0 {
        var rsSnapshot := WhereRSNoIn(docs, rsNumbers);
        existing := existing + rsSnapshot;
        missing := missing + Unmatched(rsNumbers, RsNos(rsSnapshot));
      }
      assert Results(existing, missing) == Searched(docs, numberList);
      outcome := Shown(Results(existing, missing));
    }
  }

  /** The guards on empty lists change nothing: a dictation query with no
      numbers would match no record and report no miss, and a membership
      query with no numbers returns nothing. */
  lemma SearchedUnguarded(docs: seq<Record>, wfd: seq<string>, rs: seq<string>)
    ensures var e := WfdMatching(WhereKind(docs, WFD), wfd);
      WfdFound(docs, wfd) == Results(e, Unmatched(PrefixAll(wfd), WfdKeys(e)))
    ensures var e := WhereRSNoIn(docs, rs);
      RsFound(docs, rs) == Results(e, Unmatched(rs, RsNos(e)))
  {
    if wfd == [] {
      EmptyFilter(WhereKind(docs, WFD), KeyIn(PrefixAll(wfd)));
    }
  }

  /** The form's error line and result panel. */
  datatype View = View(error: Option<string>, results: Results)

  /** What a search leaves on screen, from the entered tokens, the stored
      records, the two query faults and the results shown before. */
  function SearchView(ns: seq<string>, docs: seq<Record>, wfdFault: Option<string>, rsFault: Option<string>,
                      before: Results): (v: View)
    ensures v.error.None? <==> ns != [] && (WfdList(ns) == [] || wfdFault.None?) && (RsList(ns) == [] || rsFault.None?)
    ensures v.error.Some? ==> v.results == before
  {
    if ns == [] then View(Some(NoNumbersError), before)
    else if WfdList(ns) != [] && wfdFault.Some? then View(wfdFault, before)
    else if RsList(ns) != [] && rsFault.Some? then View(rsFault, before)
    else View(None, Searched(docs, ns))
  }

  class Component {
    const store: Store
    var numbers: string
    var results: Results
    var newContent: string
    var selectedMissing: string
    var error: Option<string>

    constructor (store: Store)
      ensures this.store == store
      ensures numbers == [] && newContent == [] && selectedMissing == []
      ensures results == Results([], []) && error == None
    {
      this.store := store;
      numbers := [];
      results := Results([], []);
      newContent := [];
      selectedMissing := [];
      error := None;
    }

    /** `handleSearch`: the error for an empty entry, otherwise what `Search`
        gives; on a failure the results are left as they were. */
    method HandleSearch(wfdFault: Option<string>, rsFault: Option<string>)
      modifies `results, `error
      ensures View(error, results) == SearchView(NumberList(numbers), store.docs, wfdFault, rsFault, old(results))
    {
      var numberList := NumberList(numbers);
      if |numberList| == 0 {
        error := Some(NoNumbersError);
      } else {
        var outcome := Search(store.docs, numberList, wfdFault, rsFault);
        match outcome
        case Failed(message) =>
          error := Some(message);
          case Shown(r) =>
          error := None;
          results := r;
        }
    }

    /** `handleAddMissing`: with a selection and a content, stores the record
        `MissingRecord` builds, searches again and clears both fields. */
    method HandleAddMissing(writeFault: Option<string>, wfdFault: Option<string>, rsFault: Option<string>)
      modifies `results, `error, `newContent, `selectedMissing, store
      ensures if old(selectedMissing) == [] || old(newContent) == [] then
          store.docs == old(store.docs) && results == old(results) && error == old(error)
          && selectedMissing == old(selectedMissing) && newContent == old(newContent)
        else if writeFault.Some? then
          store.docs == old(store.docs) && results == old(results) && error == writeFault
          && selectedMissing == old(selectedMissing) && newContent == old(newContent)
        else
          && store.docs == old(store.docs) + [MissingRecord(old(selectedMissing), old(newContent))]
          && View(error, results) == SearchView(NumberList(numbers), store.docs, wfdFault, rsFault, old(results))
          && selectedMissing == [] && newContent == []
    {
      if selectedMissing != [] && newContent != [] {
        var ok := store.AddDoc(MissingRecord(selectedMissing, newContent), writeFault);
        if !ok {
          error := writeFault;
        } else {
          // The refresh reads neither cleared field, so clearing them before
          // it leaves the same state as clearing them after it.
          newContent := [];
          selectedMissing := [];
          HandleSearch(wfdFault, rsFault);
        }
      }
    }

    /** The export button: the found records as the typed CSV. */
    function ExportCsv(): string
      reads this
    {
      TypedCsv(results.existing)
    }
  }
}
