/** The question record of `src/types/index.ts` and the document store the
    components talk to. The store is the collection `questions`: a sequence
    of records in store order. A query is a filter over that sequence in the
    same order, and `addDoc` appends. */
module Records {
  import opened Strings

  datatype Option<+T> = None | Some(value: T) {
    function GetOr(default: T): T {
      match this
      case Some(v) => v
      case None => default
    }
  }

  /** The three question categories: Write-From-Dictation, Repeat-Sentence
      and Repeat-Answer. */
  datatype Kind = WFD | RS | RA

  /** A stored question. A document without a `questionNo` reads as the empty
      identifier, which is how every component reads it (`?? ''`, `|| ''`). */
  datatype Record = Record(
    kind: Kind,
    questionNo: string,
    content: string,
    wfdNo: Option<string>,
    rsNo: Option<string>)

  /** The `type` field as stored. */
  function KindName(k: Kind): (r: string)
    ensures r == "WFD" || r == "RS" || r == "RA"
  {
    match k
    case WFD => "WFD"
    case RS => "RS"
    case RA => "RA"
  }

  /** A document with just `type`, `questionNo` and `content`, as most forms write. */
  function Plain(k: Kind, questionNo: string, content: string): Record {
    Record(k, questionNo, content, None, None)
  }

  /** Keeps the elements satisfying `p`, in their order. */
  function Filter<T(!new)>(s: seq<T>, p: T -> bool): (r: seq<T>)
    ensures |r| <= |s|
    ensures forall x :: x in r <==> x in s && p(x)
  {
    if s == [] then [] else (if p(s[0]) then [s[0]] else []) + Filter(s[1..], p)
  }

  /** A filter of a concatenation is the concatenation of the filters:
      the filter keeps store order. */
  lemma {:induction false} FilterAppend<T(!new)>(a: seq<T>, b: seq<T>, p: T -> bool)
    ensures Filter(a + b, p) == Filter(a, p) + Filter(b, p)
  {
    if a == [] {
      assert a + b == b;
    } else {
      assert (a + b)[1..] == a[1..] + b;
      FilterAppend(a[1..], b, p);
    }
  }

  /** How often an element occurs in a filter: as often as in the input when it
      passes, never otherwise. Repeated elements are kept, not collapsed. */
  lemma {:induction false} FilterCount<T(!new)>(s: seq<T>, p: T -> bool, x: T)
    ensures multiset(Filter(s, p))[x] == if p(x) then multiset(s)[x] else 0
  {
    if s != [] {
      FilterCount(s[1..], p, x);
      assert s == [s[0]] + s[1..];
    }
  }

  /** A filter of one element keeps it exactly when it passes. */
  lemma FilterOne<T(!new)>(x: T, p: T -> bool)
    ensures Filter([x], p) == if p(x) then [x] else []
  {
    assert [x][1..] == [];
  }

  /** Filtering one more element of the input adds it when it passes. */
  lemma FilterSnoc<T(!new)>(s: seq<T>, i: nat, p: T -> bool)
    requires i < |s|
    ensures Filter(s[..i + 1], p) == Filter(s[..i], p) + if p(s[i]) then [s[i]] else []
  {
    assert s[..i + 1] == s[..i] + [s[i]];
    FilterAppend(s[..i], [s[i]], p);
    FilterOne(s[i], p);
  }

  /** Two complementary filters share out the input. */
  lemma {:induction false} FilterComplement<T(!new)>(s: seq<T>, p: T -> bool, q: T -> bool)
    requires forall x :: q(x) == !p(x)
    ensures |Filter(s, p)| + |Filter(s, q)| == |s|
  {
    if s != [] {
      FilterComplement(s[1..], p, q);
    }
  }

  /** The first element of a filter is the first element of the input that
      passes it: its position is returned. */
  lemma {:induction false} FilterFirst<T(!new)>(s: seq<T>, p: T -> bool) returns (i: nat)
    requires Filter(s, p) != []
    ensures i < |s| && Filter(s, p)[0] == s[i] && p(s[i])
    ensures forall j :: 0 <= j < i ==> !p(s[j])
  {
    if p(s[0]) {
      i := 0;
    } else {
      assert Filter(s, p) == Filter(s[1..], p);
      var i' := FilterFirst(s[1..], p);
      i := i' + 1;
      forall j | 0 < j < i ensures !p(s[j]) {
        assert s[j] == s[1..][j - 1];
      }
    }
  }

  /** Maps each element through `f` and keeps the results that are present,
      in order. */
  function Collect<T, U>(s: seq<T>, f: T -> Option<U>): (r: seq<U>)
    ensures |r| <= |s|
  {
    if s == [] then []
    else (match f(s[0]) case Some(u) => [u] case None => []) + Collect(s[1..], f)
  }

  lemma {:induction false} CollectAppend<T, U>(a: seq<T>, b: seq<T>, f: T -> Option<U>)
    ensures Collect(a + b, f) == Collect(a, f) + Collect(b, f)
  {
    if a == [] {
      assert a + b == b;
    } else {
      assert (a + b)[1..] == a[1..] + b;
      CollectAppend(a[1..], b, f);
    }
  }

  /** Every result comes from an element of the input. */
  lemma {:induction false} CollectSource<T, U>(s: seq<T>, f: T -> Option<U>, u: U) returns (x: T)
    requires u in Collect(s, f)
    ensures x in s && f(x) == Some(u)
  {
    if f(s[0]) == Some(u) {
      x := s[0];
    } else {
      x := CollectSource(s[1..], f, u);
    }
  }

  /** A filter no element passes is empty. */
  lemma EmptyFilter<T(!new)>(s: seq<T>, p: T -> bool)
    requires forall x :: x in s ==> !p(x)
    ensures Filter(s, p) == []
  {
  }

  /** Some stored record carries this identifier. */
  predicate HasQuestionNo(docs: seq<Record>, questionNo: string) {
    exists r :: r in docs && r.questionNo == questionNo
  }

  /** No identifier is carried by two stored records. */
  predicate UniqueQuestionNos(docs: seq<Record>) {
    forall i, j :: 0 <= i < j < |docs| ==> docs[i].questionNo != docs[j].questionNo
  }

  /** `query(collection, where('type', '==', k))`. */
  function WhereKind(docs: seq<Record>, k: Kind): (r: seq<Record>)
    ensures forall x :: x in r <==> x in docs && x.kind == k
  {
    Filter(docs, (x: Record) => x.kind == k)
  }

  /** `query(collection, where('questionNo', '==', q))`. */
  function WhereQuestionNo(docs: seq<Record>, q: string): (r: seq<Record>)
    ensures forall x :: x in r <==> x in docs && x.questionNo == q
    ensures r == [] <==> !HasQuestionNo(docs, q)
  {
    var r := Filter(docs, (x: Record) => x.questionNo == q);
    assert r != [] ==> r[0] in r;
    r
  }

  /** `query(collection, where('WFDNo', '==', n))`. */
  function WhereWFDNo(docs: seq<Record>, n: string): (r: seq<Record>)
    ensures forall x :: x in r <==> x in docs && x.wfdNo == Some(n)
  {
    Filter(docs, (x: Record) => x.wfdNo == Some(n))
  }

  /** `query(collection, where('RSNo', 'in', ns))`. */
  function WhereRSNoIn(docs: seq<Record>, ns: seq<string>): (r: seq<Record>)
    ensures forall x :: x in r <==> x in docs && x.rsNo.Some? && x.rsNo.value in ns
    ensures ns == [] ==> r == []
  {
    var r := Filter(docs, (x: Record) => x.rsNo.Some? && x.rsNo.value in ns);
    assert r != [] ==> r[0] in r;
    r
  }

  /** The remote collection. Every write is an append; a write can fail, and
      the caller then sees the store's error message. */
  class Store {
    var docs: seq<Record>

    constructor (initial: seq<Record>)
      ensures docs == initial
    {
      docs := initial;
    }

    /** `addDoc(collection(db, 'questions'), r)`. `failure` is the error the
        store raises on this call, if it raises one. */
    method AddDoc(r: Record, failure: Option<string>) returns (ok: bool)
      modifies this
      ensures ok <==> failure.None?
      ensures docs == if ok then old(docs) + [r] else old(docs)
    {
      ok := failure.None?;
      if ok {
        docs := docs + [r];
      }
    }
  }

  /** For the handlers that write in a loop: the store either never fails,
      or fails while the loop handles element `index`, with `message`. */
  datatype StoreFault = Healthy | FailsAt(index: nat, message: string) {
    /** How many elements are handled before the store fails. */
    function Reach(n: nat): (r: nat)
      ensures r <= n
      ensures r < n <==> FailsAt? && index < n
    {
      if FailsAt? && index < n then index else n
    }

    function At(i: nat): Option<string> {
      if FailsAt? && index == i then Some(message) else None
    }
  }

  /** What a search form shows: the records found and the identifiers missing. */
  datatype Results = Results(existing: seq<Record>, missing: seq<string>)

  /** What the body of a search does: the results, or the error a query raised. */
  datatype Outcome = Shown(results: Results) | Failed(message: string)
}
