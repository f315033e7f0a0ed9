/** The found/missing reconciliation shared by the Repeat-Answer and
    Repeat-Sentence search forms: the records of a snapshot whose identifier is
    one of the search identifiers, and the search identifiers none of them
    carries. */
module Reconcile {
  import opened Strings
  import opened Records

  /** `searchNumbers.includes(storedQuestionNo)`. */
  function InKeys(keys: seq<string>): Record -> bool {
    (x: Record) => x.questionNo in keys
  }

  /** The snapshot's records whose identifier is one of `keys`, in store order. */
  function Matching(snapshot: seq<Record>, keys: seq<string>): (r: seq<Record>)
    ensures forall x :: x in r <==> x in snapshot && x.questionNo in keys
  {
    Filter(snapshot, InKeys(keys))
  }

  /** The identifiers carried by some record. */
  function QuestionNos(rs: seq<Record>): set<string> {
    set x | x in rs :: x.questionNo
  }

  /** `!foundNumbers.has(searchNum)`. */
  function NotIn(found: set<string>): string -> bool {
    (k: string) => k !in found
  }

  /** The keys outside `found`, in input order, repeats kept. */
  function Unmatched(keys: seq<string>, found: set<string>): (r: seq<string>)
    ensures forall k :: k in r <==> k in keys && k !in found
  {
    Filter(keys, NotIn(found))
  }

  /** What a search shows for one snapshot and one list of search identifiers. */
  function Reconciled(snapshot: seq<Record>, keys: seq<string>): Results {
    var existing := Matching(snapshot, keys);
    Results(existing, Unmatched(keys, QuestionNos(existing)))
  }

  /** The `forEach` over the snapshot: pushes each matching record and
      remembers its identifier. */
  method MatchSnapshot(snapshot: seq<Record>, searchNumbers: seq<string>)
    returns (existing: seq<Record>, found: set<string>)
    ensures existing == Matching(snapshot, searchNumbers)
    ensures found == QuestionNos(existing)
  {
    existing := [];
    found := {};
    for i := 0 to |snapshot|
      invariant existing == Matching(snapshot[..i], searchNumbers)
      invariant found == QuestionNos(existing)
    {
      FilterSnoc(snapshot, i, InKeys(searchNumbers));
      if snapshot[i].questionNo in searchNumbers {
        QuestionNosPush(existing, snapshot[i]);
        existing := existing + [snapshot[i]];
        found := found + {snapshot[i].questionNo};
      }
    }
    assert snapshot[..|snapshot|] == snapshot;
  }

  lemma QuestionNosPush(rs: seq<Record>, x: Record)
    ensures QuestionNos(rs + [x]) == QuestionNos(rs) + {x.questionNo}
  {
  }

  /** A search identifier is found exactly when some record of the snapshot
      carries it. */
  lemma FoundIffStored(snapshot: seq<Record>, keys: seq<string>, k: string)
    requires k in keys
    ensures k in QuestionNos(Matching(snapshot, keys)) <==> HasQuestionNo(snapshot, k)
  {
    if HasQuestionNo(snapshot, k) {
      var x :| x in snapshot && x.questionNo == k;
      assert x in Matching(snapshot, keys);
    }
  }

  /** A stored record whose identifier is searched is found, and its
      identifier is not missing. */
  lemma StoredIsFound(snapshot: seq<Record>, keys: seq<string>, r: Record)
    requires r in snapshot && r.questionNo in keys
    ensures var res := Reconciled(snapshot, keys);
      r in res.existing && r.questionNo !in res.missing
  {
    var res := Reconciled(snapshot, keys);
    assert r in res.existing;
    assert r.questionNo in QuestionNos(res.existing);
  }

  /** Every search identifier is either the identifier of a found record or
      missing, never both. */
  lemma Partition(snapshot: seq<Record>, keys: seq<string>, k: string)
    requires k in keys
    ensures var res := Reconciled(snapshot, keys);
      (exists x :: x in res.existing && x.questionNo == k) <==> k !in res.missing
  {
    var res := Reconciled(snapshot, keys);
    if k !in res.missing {
      assert k in QuestionNos(res.existing);
    }
  }

  /** A missing identifier appears as often as it was entered; a found one
      never appears. */
  lemma MissingKeepsRepeats(snapshot: seq<Record>, keys: seq<string>, k: string)
    ensures multiset(Reconciled(snapshot, keys).missing)[k]
         == if HasQuestionNo(snapshot, k) then 0 else multiset(keys)[k]
  {
    var existing := Matching(snapshot, keys);
    FilterCount(keys, NotIn(QuestionNos(existing)), k);
    if k in keys {
      FoundIffStored(snapshot, keys, k);
    }
  }

  /** The found records keep store order: a snapshot in two parts gives the
      found records of the first part, then those of the second. */
  lemma ExistingInStoreOrder(a: seq<Record>, b: seq<Record>, keys: seq<string>)
    ensures Matching(a + b, keys) == Matching(a, keys) + Matching(b, keys)
  {
    FilterAppend(a, b, InKeys(keys));
  }
}
