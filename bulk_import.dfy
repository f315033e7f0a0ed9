/** The bulk import (`src/components/BulkImport.tsx`): a parsed JSON value
    must be an array; every element is validated before anything is stored;
    the elements are then stored one at a time while a percentage shows the
    progress. */
module BulkImport {
  import opened Strings
  import opened Records
  import opened TextToJsonConverter

  /** What `JSON.parse(jsonInput)` gives: an array of question objects,
      any other JSON value, or a parse error with its message. */
  datatype Parsed = ParsedArray(items: seq<Record>) | ParsedOther | Unparsable(message: string)

  const NotArrayError: string := "Input must be an array of questions"

  /** `questionNo.match(/^#\d+\s*(WFD|RS)$/)` succeeds: the head pattern
      covers the whole identifier. */
  predicate ValidQuestionNo(q: string) {
    match HeadMatch(q)
    case Head(e, _) => e == |q|
    case NoHead => false
  }

  /** `ValidQuestionNo` is the anchored pattern: some way of reading `#`,
      digits, white space and a tag covers the identifier exactly. */
  lemma ValidQuestionNoIff(q: string)
    ensures ValidQuestionNo(q) <==> exists a, b, k :: HeadAt(q, a, b, k) && b + |KindName(k)| == |q|
  {
    if ValidQuestionNo(q) {
      var a, b, k := HeadSound(q);
    }
    if exists a, b, k :: HeadAt(q, a, b, k) && b + |KindName(k)| == |q| {
      var a, b, k :| HeadAt(q, a, b, k) && b + |KindName(k)| == |q|;
      HeadComplete(q, a, b, k);
    }
  }

  datatype Problem = MissingFields | InvalidFormat

  /** The checks of the `forEach`, in their order: both fields present and
      non-empty, then the identifier format. */
  function ProblemOf(item: Record): Option<Problem> {
    if item.questionNo == [] || item.content == [] then Some(MissingFields)
    else if !ValidQuestionNo(item.questionNo) then Some(InvalidFormat)
    else None
  }

  function Message(index: nat, p: Problem): string {
    "Question at index " + Decimal(index)
    + match p
      case MissingFields => " is missing required fields"
      case InvalidFormat => " has invalid format. Expected format: #number WFD or #number RS"
  }

  /** The outcome of checking elements in order: all pass, or the first one
      that fails and its problem. */
  datatype Verdict = AllPass | FirstFailure(index: nat, problem: Problem)

  /** The first element from `from` on that fails a check, with its problem. */
  function FirstProblem(items: seq<Record>, from: nat): (r: Verdict)
    requires from <= |items|
    ensures r.AllPass? <==> forall i :: from <= i < |items| ==> ProblemOf(items[i]).None?
    ensures r.FirstFailure? ==> (from <= r.index < |items| && ProblemOf(items[r.index]) == Some(r.problem)
                            && forall i :: from <= i < r.index ==> ProblemOf(items[i]).None?)
    decreases |items| - from
  {
    if from == |items| then AllPass
    else
      match ProblemOf(items[from])
      case Some(p) => FirstFailure(from, p)
      case None => FirstProblem(items, from + 1)
  }

  /** The validation pass: the message naming the first failing element, if any. */
  function Validate(items: seq<Record>): Option<string> {
    match FirstProblem(items, 0)
    case AllPass => None
    case FirstFailure(i, p) => Some(Message(i, p))
  }

  /** Every record the converter emits with non-empty content passes
      validation. */
  lemma ConvertedPasses(line: string, m: Converted)
    requires MatchLine(line) == Some(m) && m.content != []
    ensures ProblemOf(Plain(m.kind, m.questionNo, m.content)).None?
  {
    MatchLineShape(line, m);
  }

  /** The records of a whole converted text with non-empty content all pass. */
  lemma ConvertedTextPasses(text: string)
    ensures forall m :: m in ConvertToJson(text) && m.content != [] ==>
      ProblemOf(Plain(m.kind, m.questionNo, m.content)).None?
  {
    forall m | m in ConvertToJson(text) && m.content != []
      ensures ProblemOf(Plain(m.kind, m.questionNo, m.content)).None?
    {
      var line := CollectSource(NonBlankLines(text), MatchLine, m);
      ConvertedPasses(line, m);
    }
  }

  /** Repeat-Answer identifiers such as `RA001` never pass: the pattern needs `#`. */
  lemma RepeatAnswerRejected(item: Record)
    requires StartsWith(item.questionNo, "RA")
    ensures ProblemOf(item).Some?
  {
    assert item.questionNo[0] == 'R';
  }

  /** `Math.round((k / n) * 100)`, on exact rationals. */
  function Percent(k: nat, n: nat): (r: nat)
    requires n > 0
    ensures 2 * n * r <= 200 * k + n < 2 * n * (r + 1)
  {
    (200 * k + n) / (2 * n)
  }

  /** Multiplying by the same factor keeps the order. */
  lemma {:induction false} MulMonotone(c: nat, x: nat, y: nat)
    requires x <= y
    ensures c * x <= c * y
  {
    if c > 0 {
      MulMonotone(c - 1, x, y);
      assert c * x == (c - 1) * x + x && c * y == (c - 1) * y + y;
    }
  }

  lemma PercentBounds(k: nat, n: nat)
    requires 0 < n && k <= n
    ensures Percent(k, n) <= 100
  {
    var r := Percent(k, n);
    if r > 100 {
      MulMonotone(2 * n, 101, r);
    }
  }

  lemma PercentFull(n: nat)
    requires n > 0
    ensures Percent(n, n) == 100
  {
    var r := Percent(n, n);
    if r > 100 {
      MulMonotone(2 * n, 101, r);
    } else if r < 100 {
      MulMonotone(2 * n, r + 1, 100);
    }
  }

  lemma PercentMonotone(k1: nat, k2: nat, n: nat)
    requires 0 < n && k1 <= k2
    ensures Percent(k1, n) <= Percent(k2, n)
  {
    var r1 := Percent(k1, n);
    var r2 := Percent(k2, n);
    if r1 > r2 {
      MulMonotone(2 * n, r2 + 1, r1);
    }
  }

  /** The values the progress bar takes during an import of `total` elements
      that stores `n` of them: 0, then one percentage per stored element. */
  function ProgressTrace(n: nat, total: nat): (t: seq<nat>)
    requires n <= total
    ensures |t| == n + 1 && t[0] == 0
  {
    if n == 0 then [0] else ProgressTrace(n - 1, total) + [Percent(n, total)]
  }

  /** Element `i` of the trace is the percentage after `i` stored elements. */
  lemma {:induction false} ProgressTraceAt(n: nat, total: nat, i: nat)
    requires 0 < i <= n <= total
    ensures ProgressTrace(n, total)[i] == Percent(i, total)
  {
    if i < n {
      ProgressTraceAt(n - 1, total, i);
    }
  }

  /** Progress stays within 0..100, never goes down, and ends at 100 once
      every element is stored. */
  lemma ProgressTraceProperties(n: nat, total: nat)
    requires n <= total
    ensures var t := ProgressTrace(n, total);
      && (forall i :: 0 <= i < |t| ==> t[i] <= 100)
      && (forall i, j :: 0 <= i <= j < |t| ==> t[i] <= t[j])
      && (0 < n == total ==> t[n] == 100)
  {
    var t := ProgressTrace(n, total);
    forall i | 0 < i < |t| ensures t[i] == Percent(i, total) <= 100 {
      ProgressTraceAt(n, total, i);
      PercentBounds(i, total);
    }
    forall i, j | 0 < i <= j < |t| ensures t[i] <= t[j] {
      ProgressTraceAt(n, total, i);
      ProgressTraceAt(n, total, j);
      PercentMonotone(i, j, total);
    }
    if 0 < n == total {
      ProgressTraceAt(n, total, n);
      PercentFull(n);
    }
  }

  function SuccessMessage(n: nat): string {
    "Successfully imported " + Decimal(n) + " questions"
  }

  class Component {
    const store: Store
    var jsonInput: string
    var progress: nat
    /** Every value `progress` took during the last import, in order. */
    ghost var progressTrace: seq<nat>
    var error: Option<string>
    var success: Option<string>
    /** How often `onImportComplete` has been called. */
    var callbacks: nat

    constructor (store: Store)
      ensures this.store == store
      ensures jsonInput == [] && progress == 0 && progressTrace == []
      ensures error == None && success == None && callbacks == 0
    {
      this.store := store;
      jsonInput := [];
      progress := 0;
      progressTrace := [];
      error := None;
      success := None;
      callbacks := 0;
    }

    /** `handleImport`. `parsed` is what `JSON.parse` made of the input;
        `fault` fails the write of one element, which stops the loop with the
        elements before it stored. */
    method HandleImport(parsed: Parsed, fault: StoreFault)
      modifies this, store
      ensures progress == 0
      ensures parsed.Unparsable? ==>
        store.docs == old(store.docs) && error == Some(parsed.message) && success == None
        && jsonInput == old(jsonInput) && callbacks == old(callbacks) && progressTrace == [0]
      ensures parsed.ParsedOther? ==>
        store.docs == old(store.docs) && error == Some(NotArrayError) && success == None
        && jsonInput == old(jsonInput) && callbacks == old(callbacks) && progressTrace == [0]
      ensures parsed.ParsedArray? && Validate(parsed.items).Some? ==>
        store.docs == old(store.docs) && error == Validate(parsed.items) && success == None
        && jsonInput == old(jsonInput) && callbacks == old(callbacks) && progressTrace == [0]
      ensures parsed.ParsedArray? && Validate(parsed.items).None? ==>
        var items := parsed.items; var n := fault.Reach(|items|);
        && store.docs == old(store.docs) + items[..n]
        && progressTrace == ProgressTrace(n, |items|)
        && (n == |items| ==>
              error == None && success == Some(SuccessMessage(|items|))
              && jsonInput == [] && callbacks == old(callbacks) + 1)
        && (n < |items| ==>
              error == Some(fault.message) && success == None
              && jsonInput == old(jsonInput) && callbacks == old(callbacks))
    {
      error := None;
      success := None;
      progress := 0;
      progressTrace := [0];
      match parsed
      case Unparsable(message) =>
        error := Some(message);
      case ParsedOther =>
        error := Some(NotArrayError);
      case ParsedArray(items) =>
        var invalid := Validate(items);
        if invalid.Some? {
          error := invalid;
        } else {
          var failure := ImportLoop(items, fault);
          if failure.Some? {
            error := failure;
          } else {
            success := Some(SuccessMessage(|items|));
            jsonInput := [];
            callbacks := callbacks + 1;
          }
        }
      progress := 0;
    }

    /** The `for` loop: store each element in array order and set the
        progress after each write. */
    method ImportLoop(items: seq<Record>, fault: StoreFault) returns (failure: Option<string>)
      requires progressTrace == [0] && progress == 0
      modifies store, `progress, `progressTrace
      ensures var n := fault.Reach(|items|);
        && store.docs == old(store.docs) + items[..n]
        && progressTrace == ProgressTrace(n, |items|)
        && failure == if n < |items| then Some(fault.message) else None
    {
      ghost var docs0 := store.docs;
      for i := 0 to |items|
        invariant fault.Reach(|items|) >= i
        invariant store.docs == docs0 + items[..i]
        invariant progressTrace == ProgressTrace(i, |items|)
      {
        var ok := store.AddDoc(items[i], fault.At(i));
        if !ok {
          return Some(fault.message);
        }
        assert items[..i + 1] == items[..i] + [items[i]];
        progress := Percent(i + 1, |items|);
        progressTrace := progressTrace + [progress];
      }
      assert items[..|items|] == items;
      return None;
    }
  }
}
