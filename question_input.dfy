/** The comma-list entry form (`src/components/QuestionInput.tsx`): each
    entered identifier that no stored record carries is stored with the
    shared content, typed by its prefix. */
module QuestionInput {
  import opened Strings
  import opened Records

  /** `questionNos.split(',').map(no => no.trim())`: no piece is dropped,
      so an empty piece is an identifier too. */
  function Numbers(questionNos: string): (r: seq<string>)
    ensures |r| >= 1
    ensures forall i :: 0 <= i < |r| ==> Trim(r[i]) == r[i] && ',' !in r[i]
  {
    var parts := Split(questionNos, ',');
    var r := TrimAll(parts);
    forall i | 0 <= i < |r| ensures Trim(r[i]) == r[i] && ',' !in r[i] {
      TrimIdempotent(parts[i]);
      TrimInfix(parts[i]);
    }
    r
  }

  /** No piece is dropped: one identifier more than the entry has commas. */
  lemma NumbersCount(questionNos: string)
    ensures |Numbers(questionNos)| == multiset(questionNos)[','] + 1
  {
    SplitCount(questionNos, ',');
  }

  /** A dictation identifier when its upper-cased form starts with `WFD`, a
      sentence identifier otherwise. */
  function TypeOf(no: string): (k: Kind)
    ensures k == WFD || k == RS
  {
    if StartsWith(Upper(no), "WFD") then WFD else RS
  }

  /** The store after the loop has handled `ts`: each identifier not yet
      carried by a record, counting the records stored for earlier ones, is
      appended with the shared content. */
  function InsertAllAbsent(docs: seq<Record>, ts: seq<string>, content: string): (r: seq<Record>)
    ensures |docs| <= |r| <= |docs| + |ts|
    ensures r[..|docs|] == docs
  {
    if ts == [] then docs
    else
      var d := InsertAllAbsent(docs, ts[..|ts| - 1], content);
      var t := ts[|ts| - 1];
      if HasQuestionNo(d, t) then d else d + [Plain(TypeOf(t), t, content)]
  }

  /** One more pass of the loop. */
  lemma InsertStep(docs: seq<Record>, ts: seq<string>, i: nat, content: string)
    requires i < |ts|
    ensures var d := InsertAllAbsent(docs, ts[..i], content);
      InsertAllAbsent(docs, ts[..i + 1], content)
        == if HasQuestionNo(d, ts[i]) then d else d + [Plain(TypeOf(ts[i]), ts[i], content)]
  {
    assert ts[..i + 1][..i] == ts[..i];
  }

  /** After the loop every identifier has a record. */
  lemma {:induction false} InsertCovers(docs: seq<Record>, ts: seq<string>, content: string)
    ensures forall t :: t in ts ==> HasQuestionNo(InsertAllAbsent(docs, ts, content), t)
  {
    if ts != [] {
      var init := ts[..|ts| - 1];
      InsertCovers(docs, init, content);
      var d := InsertAllAbsent(docs, init, content);
      var r := InsertAllAbsent(docs, ts, content);
      assert forall x :: x in d ==> x in r;
      assert ts == init + [ts[|ts| - 1]];
      if !HasQuestionNo(d, ts[|ts| - 1]) {
        assert r[|r| - 1].questionNo == ts[|ts| - 1];
      }
    }
  }

  /** The records of `r` after `docs` each carry one of `ts`, its type and `content`. */
  predicate AppendedFrom(docs: seq<Record>, r: seq<Record>, ts: seq<string>, content: string) {
    forall i :: |docs| <= i < |r| ==>
      r[i].questionNo in ts && r[i] == Plain(TypeOf(r[i].questionNo), r[i].questionNo, content)
  }

  /** No record of `r` from position `n` on carries an identifier an earlier record carries. */
  predicate FreshAfter(n: nat, r: seq<Record>) {
    forall i, j :: 0 <= i < j < |r| && n <= j ==> r[i].questionNo != r[j].questionNo
  }

  /** Every appended record carries one of the identifiers, its type, and
      the shared content. */
  lemma {:induction false} InsertShape(docs: seq<Record>, ts: seq<string>, content: string)
    ensures AppendedFrom(docs, InsertAllAbsent(docs, ts, content), ts, content)
  {
    if ts != [] {
      var init := ts[..|ts| - 1];
      var t := ts[|ts| - 1];
      InsertShape(docs, init, content);
      var d := InsertAllAbsent(docs, init, content);
      var r := InsertAllAbsent(docs, ts, content);
      assert r == if HasQuestionNo(d, t) then d else d + [Plain(TypeOf(t), t, content)];
      forall i | |docs| <= i < |r|
        ensures r[i].questionNo in ts && r[i] == Plain(TypeOf(r[i].questionNo), r[i].questionNo, content)
      {
        if i < |d| {
          assert r[i] == d[i];
          assert d[i].questionNo in init;
        } else {
          assert r[i] == Plain(TypeOf(t), t, content);
        }
      }
    }
  }

  /** An appended record carries an identifier no earlier record carries: a
      repeated identifier is stored at most once and an existing one never. */
  lemma {:induction false} InsertFresh(docs: seq<Record>, ts: seq<string>, content: string)
    ensures FreshAfter(|docs|, InsertAllAbsent(docs, ts, content))
  {
    if ts != [] {
      var init := ts[..|ts| - 1];
      var t := ts[|ts| - 1];
      InsertFresh(docs, init, content);
      var d := InsertAllAbsent(docs, init, content);
      var r := InsertAllAbsent(docs, ts, content);
      assert r == if HasQuestionNo(d, t) then d else d + [Plain(TypeOf(t), t, content)];
      forall i, j | 0 <= i < j < |r| && |docs| <= j ensures r[i].questionNo != r[j].questionNo {
        if j < |d| {
          assert r[i] == d[i] && r[j] == d[j];
          assert d[i].questionNo != d[j].questionNo;
        } else {
          assert r[i] in d;
        }
      }
    }
  }

  /** Identifiers that were unique stay unique. */
  lemma InsertKeepsUnique(docs: seq<Record>, ts: seq<string>, content: string)
    requires UniqueQuestionNos(docs)
    ensures UniqueQuestionNos(InsertAllAbsent(docs, ts, content))
  {
    InsertFresh(docs, ts, content);
    var r := InsertAllAbsent(docs, ts, content);
    forall i, j | 0 <= i < j < |r| ensures r[i].questionNo != r[j].questionNo {
      if j < |docs| {
        assert r[i] == docs[i] && r[j] == docs[j];
      }
    }
  }

  lemma SplitEmptyPiece()
    ensures Split("a,,b", ',') == ["a", "", "b"]
  {
    assert "a,,b" == "a" + [','] + ",b";
    SplitAppend("a", ",b", ',');
    assert ",b" == [] + [','] + "b";
    SplitAppend([], "b", ',');
    SplitNoSeparator("a", ',');
    SplitNoSeparator("b", ',');
    SplitNoSeparator([], ',');
  }

  /** An empty piece between two commas is kept as an identifier. */
  lemma EmptyPieceKept()
    ensures Numbers("a,,b") == ["a", "", "b"]
  {
    SplitEmptyPiece();
    TrimNoSpace("a");
    TrimNoSpace("b");
    TrimNoSpace([]);
    var r := Numbers("a,,b");
    assert r[0] == "a" && r[1] == "" && r[2] == "b";
  }

  /** One pass of the loop that reaches the store: query the identifier and
      store a record for it when the query comes back empty. */
  method InsertIfAbsent(store: Store, no: string, content: string)
    requires Trim(no) == no
    modifies store
    ensures store.docs == if HasQuestionNo(old(store.docs), no) then old(store.docs)
                          else old(store.docs) + [Plain(TypeOf(no), no, content)]
  {
    // the identifiers arrive trimmed, so trimming again changes nothing
    var kind := TypeOf(no);
    var questionNo := Trim(no);
    var querySnapshot := WhereQuestionNo(store.docs, questionNo);
    if querySnapshot == [] {
      var _ := store.AddDoc(Plain(kind, questionNo, content), None);
    }
  }

  /** The `for` loop of `handleSubmit`: for each identifier, query it and
      store it when the query comes back empty. `fault` fails the query or
      the write of one identifier, which ends the loop with its message. */
  method InsertLoop(store: Store, numbers: seq<string>, content: string, fault: StoreFault)
    returns (failure: Option<string>)
    requires forall i :: 0 <= i < |numbers| ==> Trim(numbers[i]) == numbers[i]
    modifies store
    ensures store.docs == InsertAllAbsent(old(store.docs), numbers[..fault.Reach(|numbers|)], content)
    ensures failure == if fault.Reach(|numbers|) < |numbers| then Some(fault.message) else None
  {
    ghost var docs0 := store.docs;
    for i := 0 to |numbers|
      invariant fault.Reach(|numbers|) >= i
      invariant store.docs == InsertAllAbsent(docs0, numbers[..i], content)
    {
      if fault.At(i).Some? {
        assert fault.Reach(|numbers|) == i;
        return Some(fault.message);
      }
      InsertStep(docs0, numbers, i, content);
      InsertIfAbsent(store, numbers[i], content);
    }
    assert numbers[..|numbers|] == numbers;
    return None;
  }

  class Component {
    const store: Store
    var questionNos: string
    var newContent: string
    var error: Option<string>
    /** How often `onQuestionAdded` has been called. */
    var callbacks: nat

    constructor (store: Store)
      ensures this.store == store
      ensures questionNos == [] && newContent == [] && error == None && callbacks == 0
    {
      this.store := store;
      questionNos := [];
      newContent := [];
      error := None;
      callbacks := 0;
    }

    /** `handleSubmit`. `fault` fails the query or the write of one
        identifier; the loop stops there, the records stored for earlier
        identifiers stay, and the fields are kept. */
    method HandleSubmit(fault: StoreFault)
      modifies this, store
      ensures var ns := Numbers(old(questionNos)); var n := fault.Reach(|ns|);
        store.docs == InsertAllAbsent(old(store.docs), ns[..n], old(newContent))
      ensures var ns := Numbers(old(questionNos));
        fault.Reach(|ns|) == |ns| ==>
          error == None && questionNos == [] && newContent == [] && callbacks == old(callbacks) + 1
      ensures var ns := Numbers(old(questionNos));
        fault.Reach(|ns|) < |ns| ==>
          error == Some(fault.message) && questionNos == old(questionNos)
          && newContent == old(newContent) && callbacks == old(callbacks)
    {
      error := None;
      var numbers := Numbers(questionNos);
      var failure := InsertLoop(store, numbers, newContent, fault);
      if failure.Some? {
        error := failure;
        return;
      }
      questionNos := [];
      newContent := [];
      callbacks := callbacks + 1;
    }
  }
}
