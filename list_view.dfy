/** The list pipeline shared by the question lists: keep the records of one
    type, keep those matching the search term, then sort the result in place
    by the number in the identifier. */
module ListView {
  import opened Strings
  import opened Records

  /** `filter ? fetched.filter(q => q.type === filter) : fetched`. */
  function ByKind(docs: seq<Record>, filter: Option<Kind>): (r: seq<Record>)
    ensures filter.None? ==> r == docs
    ensures forall x :: x in r <==> x in docs && (filter.None? || x.kind == filter.value)
  {
    match filter
    case None => docs
    case Some(k) => WhereKind(docs, k)
  }

  /** The lower-cased content or identifier contains the lower-cased term. */
  predicate Hit(term: string, x: Record) {
    Contains(Lower(x.content), Lower(term)) || Contains(Lower(x.questionNo), Lower(term))
  }

  function HitsTerm(term: string): Record -> bool {
    (x: Record) => Hit(term, x)
  }

  /** The search step: skipped for an empty term. */
  function BySearch(docs: seq<Record>, term: string): (r: seq<Record>)
    ensures term == [] ==> r == docs
    ensures forall x :: x in r <==> x in docs && (term == [] || Hit(term, x))
  {
    if term == [] then docs else Filter(docs, HitsTerm(term))
  }

  /** `parseInt(questionNo.replace(/\D/g, ''))`, with `None` for `NaN`
      (an identifier without digits). */
  function SortKey(r: Record): Option<nat> {
    var d := Digits(r.questionNo);
    if d == [] then None else Some(DecimalValue(d))
  }

  /** The comparator `aNum - bNum` is positive. A `NaN` difference counts as
      zero, so a record without digits is never greater nor smaller. */
  predicate Greater(a: Record, b: Record) {
    SortKey(a).Some? && SortKey(b).Some? && SortKey(a).value > SortKey(b).value
  }

  /** Places `x` after the sorted prefix `s`, moving it left past every
      element at the end that `gt` says is greater. `gt` stands for the
      comparator handed to `sort`: `gt(a, b)` when it returns a positive
      number for `a` and `b`. */
  function Insert(s: seq<Record>, x: Record, gt: (Record, Record) -> bool): (r: seq<Record>)
    ensures |r| == |s| + 1
  {
    if s == [] || !gt(s[|s| - 1], x) then s + [x]
    else Insert(s[..|s| - 1], x, gt) + [s[|s| - 1]]
  }

  /** Insertion sort, as a function: the order the in-place sort produces. */
  function SortSeq(s: seq<Record>, gt: (Record, Record) -> bool): (r: seq<Record>)
    ensures |r| == |s|
  {
    if s == [] then [] else Insert(SortSeq(s[..|s| - 1], gt), s[|s| - 1], gt)
  }

  lemma {:induction false} InsertPermutes(s: seq<Record>, x: Record, gt: (Record, Record) -> bool)
    ensures multiset(Insert(s, x, gt)) == multiset(s) + multiset{x}
  {
    if s != [] && gt(s[|s| - 1], x) {
      var init, last := s[..|s| - 1], s[|s| - 1];
      InsertPermutes(init, x, gt);
      assert Insert(s, x, gt) == Insert(init, x, gt) + [last];
      assert s == init + [last];
      assert multiset(s) == multiset(init) + multiset{last};
    }
  }

  /** The sorted list is a rearrangement of its input: nothing is lost,
      duplicated or added. */
  lemma {:induction false} SortPermutes(s: seq<Record>, gt: (Record, Record) -> bool)
    ensures multiset(SortSeq(s, gt)) == multiset(s)
  {
    if s != [] {
      SortPermutes(s[..|s| - 1], gt);
      InsertPermutes(SortSeq(s[..|s| - 1], gt), s[|s| - 1], gt);
      assert s == s[..|s| - 1] + [s[|s| - 1]];
    }
  }

  /** Every identifier has at least one digit, so every key is a number. */
  predicate AllNumeric(s: seq<Record>) {
    forall i :: 0 <= i < |s| ==> SortKey(s[i]).Some?
  }

  /** Ascending by key. */
  predicate Sorted(s: seq<Record>) {
    forall i, j :: 0 <= i < j < |s| ==> !Greater(s[i], s[j])
  }

  lemma {:induction false} InsertSorted(s: seq<Record>, x: Record)
    requires Sorted(s) && AllNumeric(s) && SortKey(x).Some?
    ensures Sorted(Insert(s, x, Greater))
  {
    if s != [] && Greater(s[|s| - 1], x) {
      var init := s[..|s| - 1];
      var last := s[|s| - 1];
      InsertSorted(init, x);
      InsertPermutes(init, x, Greater);
      var r := Insert(init, x, Greater);
      forall k | 0 <= k < |r| ensures !Greater(r[k], last) {
        InsertMember(init, x, Greater, r[k]);
        if r[k] != x {
          var m :| 0 <= m < |init| && init[m] == r[k];
          assert s[m] == r[k];
        }
      }
    }
  }

  /** Every element of an insertion is the inserted one or one of the prefix. */
  lemma InsertMember(s: seq<Record>, x: Record, gt: (Record, Record) -> bool, y: Record)
    requires y in Insert(s, x, gt)
    ensures y == x || y in s
  {
    InsertPermutes(s, x, gt);
    assert y in multiset(Insert(s, x, gt));
  }

  lemma {:induction false} SortAllNumeric(s: seq<Record>)
    requires AllNumeric(s)
    ensures AllNumeric(SortSeq(s, Greater))
  {
    SortPermutes(s, Greater);
    var r := SortSeq(s, Greater);
    forall k | 0 <= k < |r| ensures SortKey(r[k]).Some? {
      assert r[k] in multiset(s);
    }
  }

  /** When every identifier has a digit, the list comes out in ascending
      order of its number. */
  lemma {:induction false} SortSorts(s: seq<Record>)
    requires AllNumeric(s)
    ensures Sorted(SortSeq(s, Greater))
  {
    if s != [] {
      var init := s[..|s| - 1];
      SortSorts(init);
      SortAllNumeric(init);
      InsertSorted(SortSeq(init, Greater), s[|s| - 1]);
    }
  }

  /** `filteredQuestions.sort(...)`: insertion sort in place. */
  method SortInPlace(a: array<Record>, gt: (Record, Record) -> bool)
    modifies a
    ensures a[..] == SortSeq(old(a[..]), gt)
  {
    ghost var s0 := a[..];
    var i := 0;
    while i < a.Length
      invariant 0 <= i <= a.Length
      invariant a[..i] == SortSeq(s0[..i], gt)
      invariant a[i..] == s0[i..]
    {
      SortStep(s0, i, gt);
      assert a[i + 1..] == s0[i + 1..];
      InsertAt(a, i, gt);
      i := i + 1;
    }
    assert s0[..a.Length] == s0;
  }

  /** One pass: moves `a[i]` left past the greater elements of the sorted
      prefix `a[..i]`, shifting them right by one. */
  method InsertAt(a: array<Record>, i: nat, gt: (Record, Record) -> bool)
    requires i < a.Length
    modifies a
    ensures a[..i + 1] == Insert(old(a[..i]), old(a[i]), gt)
    ensures a[i + 1..] == old(a[i + 1..])
  {
    var x := a[i];
    ghost var p := a[..i];
    ghost var tail := a[i + 1..];
    assert p[..i] == p && p[i..] == [];
    assert a[..] == p[..i] + [x] + p[i..] + tail;
    var j := i;
    while j > 0 && gt(a[j - 1], x)
      invariant 0 <= j <= i
      invariant a[..] == p[..j] + [a[j]] + p[j..] + tail
      invariant forall k :: j <= k < i ==> gt(p[k], x)
    {
      ShiftRight(a[..], p, j, tail);
      a[j] := a[j - 1];
      j := j - 1;
    }
    InsertShape(p, j, x, gt);
    Place(a[..], p, j, tail, x);
    a[j] := x;
  }

  /** Copying the element left of the gap into the gap moves the gap one
      place to the left. */
  lemma ShiftRight(s: seq<Record>, p: seq<Record>, j: nat, tail: seq<Record>)
    requires 0 < j <= |p| && j < |s| && s == p[..j] + [s[j]] + p[j..] + tail
    ensures s[j := s[j - 1]] == p[..j - 1] + [s[j - 1]] + p[j - 1..] + tail
  {
    assert p[j - 1..] == [p[j - 1]] + p[j..];
    assert p[..j] == p[..j - 1] + [p[j - 1]];
  }

  /** Filling the gap puts the inserted element between the two parts. */
  lemma Place(s: seq<Record>, p: seq<Record>, j: nat, tail: seq<Record>, x: Record)
    requires j <= |p| && j < |s| && s == p[..j] + [s[j]] + p[j..] + tail
    ensures s[j := x][..|p| + 1] == p[..j] + [x] + p[j..]
    ensures s[j := x][|p| + 1..] == tail
  {
    assert s[j := x] == (p[..j] + [x] + p[j..]) + tail;
  }

  /** Inserting after a run of greater elements that follows a smaller-or-equal
      one (or the start) puts the element at the start of that run. */
  lemma {:induction false} InsertShape(p: seq<Record>, j: nat, x: Record, gt: (Record, Record) -> bool)
    requires j <= |p| && (j == 0 || !gt(p[j - 1], x))
    requires forall k :: j <= k < |p| ==> gt(p[k], x)
    ensures Insert(p, x, gt) == p[..j] + [x] + p[j..]
  {
    if j == |p| {
      assert p[..j] == p;
    } else {
      var q, last := p[..|p| - 1], p[|p| - 1];
      assert Insert(p, x, gt) == Insert(q, x, gt) + [last];
      assert q[..j] == p[..j];
      InsertShape(q, j, x, gt);
      assert p[j..] == q[j..] + [last];
    }
  }

  lemma SortStep(s: seq<Record>, i: nat, gt: (Record, Record) -> bool)
    requires i < |s|
    ensures SortSeq(s[..i + 1], gt) == Insert(SortSeq(s[..i], gt), s[i], gt)
  {
    assert s[..i + 1][..i] == s[..i];
  }

  /** What a list shows: the fetched records of the chosen type that match
      the term, sorted. */
  function Displayed(fetched: seq<Record>, filter: Option<Kind>, term: string): seq<Record> {
    SortSeq(BySearch(ByKind(fetched, filter), term), Greater)
  }

  /** The body of `fetchQuestions` after the read: filter, search, then sort
      the filtered array in place. */
  method Fetch(fetched: seq<Record>, filter: Option<Kind>, term: string) returns (questions: seq<Record>)
    ensures questions == Displayed(fetched, filter, term)
  {
    var filtered := BySearch(ByKind(fetched, filter), term);
    var a := new Record[|filtered|](k requires 0 <= k < |filtered| => filtered[k]);
    assert a[..] == filtered;
    SortInPlace(a, Greater);
    questions := a[..];
  }

  /** The list shows exactly the fetched records of the chosen type that
      match the term, each as often as it was fetched. */
  lemma DisplayedContents(fetched: seq<Record>, filter: Option<Kind>, term: string)
    ensures multiset(Displayed(fetched, filter, term)) == multiset(BySearch(ByKind(fetched, filter), term))
    ensures forall x :: x in Displayed(fetched, filter, term) <==>
      x in fetched && (filter.None? || x.kind == filter.value) && (term == [] || Hit(term, x))
  {
    var filtered := BySearch(ByKind(fetched, filter), term);
    SortPermutes(filtered, Greater);
    forall x ensures x in Displayed(fetched, filter, term) <==> x in filtered {
      assert x in multiset(SortSeq(filtered, Greater)) <==> x in multiset(filtered);
    }
  }
}
