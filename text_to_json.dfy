/** `convertToJson` of `src/components/TextToJsonConverter.tsx`: pasted text,
    one question per line in the form `#418 WFD University graduates ...`,
    becomes a list of `{questionNo, type, content}` records. */
module TextToJsonConverter {
  import opened Strings
  import opened Records

  /** One converted line. `kind` is the `type` field, always `WFD` or `RS`. */
  datatype Converted = Converted(questionNo: string, kind: Kind, content: string)

  /** The tag `WFD` or `RS` at position `i` (`WFD` is tried first). */
  function TagAt(s: string, i: nat): (r: Option<Kind>)
    requires i <= |s|
    ensures r.Some? ==> r.value == WFD || r.value == RS
  {
    if StartsWith(s[i..], "WFD") then Some(WFD)
    else if StartsWith(s[i..], "RS") then Some(RS)
    else None
  }

  /** The tag `TagAt` reads is there. */
  lemma TagSound(s: string, i: nat)
    requires i <= |s| && TagAt(s, i).Some?
    ensures StartsWith(s[i..], KindName(TagAt(s, i).value))
  {
  }

  /** The outcome of the head pattern: no match, or where the match ends and
      which tag it read. */
  datatype Head = NoHead | Head(end: nat, kind: Kind)

  /** What `#\d+\s*(WFD|RS)` matches at the start of `s`: where the match ends and
      which tag it read. Both runs are greedy, and giving back a digit or a space
      cannot help the tag match, so the match is unique. */
  function HeadMatch(s: string): (r: Head)
    ensures r.Head? ==> r.end <= |s| && (r.kind == WFD || r.kind == RS)
  {
    if |s| == 0 || s[0] != '#' || DigitsEnd(s) == 1 then NoHead
    else
      match TagAt(s, SpacesEnd(s))
      case None => NoHead
      case Some(k) => Head(SpacesEnd(s) + |KindName(k)|, k)
  }

  /** Where the greedy `\d+` after the `#` stops. */
  function DigitsEnd(s: string): (a: nat)
    requires |s| > 0
    ensures 1 <= a <= |s|
  {
    1 + Run(s, 1, IsDigit)
  }

  /** Where the greedy `\s*` after the digits stops. */
  function SpacesEnd(s: string): (b: nat)
    requires |s| > 0
    ensures DigitsEnd(s) <= b <= |s|
  {
    DigitsEnd(s) + Run(s, DigitsEnd(s), IsSpace)
  }

  predicate NoTerminator(s: string) {
    forall i :: 0 <= i < |s| ==> !IsLineTerminator(s[i])
  }

  /** Where `\s*(.+)$` starts its group on the text after the tag: `\s*` is
      greedy but gives back one character when nothing else is left for `.+`;
      `.` matches anything but a line terminator, and `$` is the end of the
      line. */
  function TailStart(rest: string): (r: Option<nat>)
    ensures r.Some? ==> r.value < |rest|
  {
    var w := Run(rest, 0, IsSpace);
    if w < |rest| then
      if NoTerminator(rest[w..]) then Some(w) else None
    else if rest != [] && !IsLineTerminator(rest[|rest| - 1]) then Some(|rest| - 1)
    else None
  }

  /** The third group, trimmed. */
  function MatchTail(rest: string): Option<string> {
    match TailStart(rest)
    case Some(c) => Some(Trim(rest[c..]))
    case None => None
  }

  /** `line.match(/^(#\d+\s*(WFD|RS))\s*(.+)$/)` followed by trimming the three
      groups. */
  function MatchLine(line: string): Option<Converted> {
    match HeadMatch(line)
    case NoHead => None
    case Head(e, k) =>
      match MatchTail(line[e..])
      case None => None
      case Some(content) => Some(Converted(line[..e], k, content))
  }

  /** `#\d+\s*(WFD|RS)` matches the start of `s` this way: `#` at 0, digits in
      `[1, a)`, white space in `[a, b)`, then the tag. */
  ghost predicate HeadAt(s: string, a: int, b: int, k: Kind) {
    && |s| > 0 && s[0] == '#'
    && 1 < a <= b
    && (k == WFD || k == RS)
    && b + |KindName(k)| <= |s|
    && (forall j :: 1 <= j < a ==> IsDigit(s[j]))
    && (forall j :: a <= j < b ==> IsSpace(s[j]))
    && s[b..b + |KindName(k)|] == KindName(k)
  }

  /** `\s*(.+)$` matches `rest` this way: white space in `[0, c)`, then one or
      more characters other than a line terminator up to the end. */
  ghost predicate TailAt(rest: string, c: int) {
    && 0 <= c < |rest|
    && (forall j :: 0 <= j < c ==> IsSpace(rest[j]))
    && (forall j :: c <= j < |rest| ==> !IsLineTerminator(rest[j]))
  }

  /** The regular expression's matches, by position. */
  ghost predicate RegexMatchAt(line: string, a: int, b: int, k: Kind, c: int) {
    HeadAt(line, a, b, k) && TailAt(line[b + |KindName(k)|..], c)
  }

  ghost predicate Matches(line: string) {
    exists a, b, k, c :: RegexMatchAt(line, a, b, k, c)
  }

  /** However the head pattern matches, it fixes where it ends and which tag
      it read, and `HeadMatch` finds exactly that. */
  lemma HeadComplete(s: string, a: int, b: int, k: Kind)
    requires HeadAt(s, a, b, k)
    ensures HeadMatch(s) == Head(b + |KindName(k)|, k)
  {
    HeadTagStart(s, a, b, k);
    HeadDigits(s, a, b, k);
    HeadSpaces(s, a, b, k);
    HeadTag(s, a, b, k);
  }

  lemma HeadTagStart(s: string, a: int, b: int, k: Kind)
    requires HeadAt(s, a, b, k)
    ensures s[b] == KindName(k)[0]
  {
    assert s[b..b + |KindName(k)|][0] == s[b];
  }

  /** `\d+` cannot stop early: the character after the digits is a space or a tag letter. */
  lemma HeadDigits(s: string, a: int, b: int, k: Kind)
    requires HeadAt(s, a, b, k)
    requires s[b] == KindName(k)[0]
    ensures DigitsEnd(s) == a
  {
    assert !IsDigit(s[a]);
    RunExact(s, 1, IsDigit, a - 1);
  }

  /** `\s*` cannot stop early: the character after the spaces is a tag letter. */
  lemma HeadSpaces(s: string, a: int, b: int, k: Kind)
    requires HeadAt(s, a, b, k)
    requires s[b] == KindName(k)[0] && DigitsEnd(s) == a
    ensures SpacesEnd(s) == b
  {
    assert !IsSpace(s[b]);
    RunExact(s, a, IsSpace, b - a);
  }

  lemma HeadTag(s: string, a: int, b: int, k: Kind)
    requires HeadAt(s, a, b, k)
    ensures TagAt(s, b) == Some(k)
  {
    var t := s[b..];
    assert t[..|KindName(k)|] == KindName(k);
    if k == RS {
      assert t[0] == t[..|KindName(k)|][0] == 'R';
      assert !StartsWith(t, "WFD");
    }
  }

  /** A head match found by `HeadMatch` is a head match of the pattern. */
  lemma HeadSound(s: string) returns (a: int, b: int, k: Kind)
    requires HeadMatch(s).Head?
    ensures HeadAt(s, a, b, k)
    ensures HeadMatch(s) == Head(b + |KindName(k)|, k)
  {
    a := DigitsEnd(s);
    b := SpacesEnd(s);
    k := HeadMatch(s).kind;
    assert TagAt(s, b) == Some(k);
    TagSound(s, b);
    StartsWithAt(s, b, KindName(k));
  }

  /** The position `TailStart` finds is a match of `\s*(.+)$`. */
  lemma TailSound(rest: string)
    requires TailStart(rest).Some?
    ensures TailAt(rest, TailStart(rest).value)
  {
    var w := Run(rest, 0, IsSpace);
    var c := TailStart(rest).value;
    forall j | c <= j < |rest| ensures !IsLineTerminator(rest[j]) {
      if w < |rest| { assert rest[j] == rest[w..][j - w]; }
    }
  }

  /** However `\s*(.+)$` matches, `TailStart` finds a match. */
  lemma TailComplete(rest: string, c: int)
    requires TailAt(rest, c)
    ensures TailStart(rest).Some?
  {
    var w := Run(rest, 0, IsSpace);
    if w < |rest| {
      assert w >= c;
      forall j | 0 <= j < |rest[w..]| ensures !IsLineTerminator(rest[w..][j]) {
        assert rest[w..][j] == rest[w + j];
      }
    }
  }

  /** The third group, trimmed, is the whole text after the tag, trimmed. */
  lemma TailContent(rest: string)
    requires MatchTail(rest).Some?
    ensures MatchTail(rest).value == Trim(rest)
  {
    var w := Run(rest, 0, IsSpace);
    if w < |rest| {
      assert Run(rest[w..], 0, IsSpace) == 0;
    } else {
      assert AllSpace(rest[|rest| - 1..]);
    }
  }

  /** Every way the pattern can match a line yields the result `MatchLine`
      gives: `MatchLine` succeeds, and its `questionNo` and `type` are the ones
      that match fixes. */
  lemma MatchLineComplete(line: string, a: int, b: int, k: Kind, c: int)
    requires RegexMatchAt(line, a, b, k, c)
    ensures MatchLine(line).Some?
    ensures MatchLine(line).value.questionNo == line[..b + |KindName(k)|]
    ensures MatchLine(line).value.kind == k
  {
    HeadComplete(line, a, b, k);
    MatchLineOf(line, b + |KindName(k)|, k, c);
  }

  /** A head match ending at `e` followed by a tail match gives a converted line. */
  lemma MatchLineOf(line: string, e: nat, k: Kind, c: int)
    requires HeadMatch(line) == Head(e, k)
    requires TailAt(line[e..], c)
    ensures MatchLine(line).Some? && MatchLine(line).value.questionNo == line[..e]
    ensures MatchLine(line).value.kind == k
  {
    TailComplete(line[e..], c);
  }

  /** When `MatchLine` succeeds, the pattern does match the line. */
  lemma MatchLineSound(line: string)
    requires MatchLine(line).Some?
    ensures Matches(line)
  {
    var e, k := MatchLineParts(line);
    var a, b, k' := HeadSound(line);
    MatchesOf(line, a, b, k');
  }

  /** A head match followed by a tail match is a match of the whole pattern. */
  lemma MatchesOf(line: string, a: int, b: int, k: Kind)
    requires HeadAt(line, a, b, k) && TailStart(line[b + |KindName(k)|..]).Some?
    ensures Matches(line)
  {
    TailSound(line[b + |KindName(k)|..]);
    MatchesAt(line, a, b, k, TailStart(line[b + |KindName(k)|..]).value);
  }

  lemma MatchesAt(line: string, a: int, b: int, k: Kind, c: int)
    requires HeadAt(line, a, b, k) && TailAt(line[b + |KindName(k)|..], c)
    ensures Matches(line)
  {
    assert RegexMatchAt(line, a, b, k, c);
  }

  /** A converted line is a head match followed by a tail match. */
  lemma MatchLineParts(line: string) returns (e: nat, k: Kind)
    requires MatchLine(line).Some?
    ensures HeadMatch(line) == Head(e, k) && TailStart(line[e..]).Some?
  {
    e, k := HeadMatch(line).end, HeadMatch(line).kind;
  }

  /** The pattern matches exactly the lines `MatchLine` accepts. */
  lemma MatchLineIff(line: string)
    ensures MatchLine(line).Some? <==> Matches(line)
  {
    if MatchLine(line).Some? {
      MatchLineSound(line);
    } else if Matches(line) {
      var a, b, k, c :| RegexMatchAt(line, a, b, k, c);
      MatchLineComplete(line, a, b, k, c);
    }
  }

  /** The shape of a converted line: `questionNo` is the matched prefix as typed
      (white space between the digits and the tag kept), it is itself exactly a
      head match, it ends with the tag named by `type`, and `content` is the
      rest of the line trimmed. */
  lemma MatchLineShape(line: string, m: Converted)
    requires MatchLine(line) == Some(m)
    ensures && (m.kind == WFD || m.kind == RS)
      && StartsWith(line, m.questionNo)
      && HeadMatch(m.questionNo) == Head(|m.questionNo|, m.kind)
      && |KindName(m.kind)| <= |m.questionNo|
      && m.questionNo[|m.questionNo| - |KindName(m.kind)|..] == KindName(m.kind)
      && m.content == Trim(line[|m.questionNo|..])
  {
    var e, k := MatchLineParts(line);
    MatchLineValue(line, e, k);
    HeadPrefix(line, e, k);
    ShapeOf(line, m, e);
  }

  lemma ShapeOf(line: string, m: Converted, e: nat)
    requires e <= |line| && m.questionNo == line[..e] && m.content == Trim(line[e..])
    requires HeadMatch(line[..e]) == Head(e, m.kind)
    requires |KindName(m.kind)| <= e && line[..e][e - |KindName(m.kind)|..] == KindName(m.kind)
    ensures && (m.kind == WFD || m.kind == RS)
      && StartsWith(line, m.questionNo)
      && HeadMatch(m.questionNo) == Head(|m.questionNo|, m.kind)
      && |KindName(m.kind)| <= |m.questionNo|
      && m.questionNo[|m.questionNo| - |KindName(m.kind)|..] == KindName(m.kind)
      && m.content == Trim(line[|m.questionNo|..])
  {
  }

  /** The result of a matching line, spelled out from where its head ends. */
  lemma MatchLineValue(line: string, e: nat, k: Kind)
    requires HeadMatch(line) == Head(e, k) && TailStart(line[e..]).Some?
    ensures e <= |line| && MatchLine(line) == Some(Converted(line[..e], k, Trim(line[e..])))
  {
    TailContent(line[e..]);
  }

  /** The head match of a line is, on its own, a complete head match ending
      in its tag. */
  lemma HeadPrefix(s: string, e: nat, k: Kind)
    requires HeadMatch(s) == Head(e, k)
    ensures e <= |s| && HeadMatch(s[..e]) == Head(e, k)
    ensures |KindName(k)| <= e && s[..e][e - |KindName(k)|..] == KindName(k)
  {
    var a, b, k' := HeadSound(s);
    HeadPrefixAt(s, a, b, k, e);
  }

  lemma HeadPrefixAt(s: string, a: int, b: int, k: Kind, e: nat)
    requires HeadAt(s, a, b, k) && e == b + |KindName(k)|
    ensures e <= |s| && HeadMatch(s[..e]) == Head(e, k)
    ensures |KindName(k)| <= e && s[..e][e - |KindName(k)|..] == KindName(k)
  {
    HeadAtPrefix(s, a, b, k);
    HeadComplete(s[..e], a, b, k);
  }

  /** A head match is also a head match of the prefix it covers. */
  lemma HeadAtPrefix(s: string, a: int, b: int, k: Kind)
    requires HeadAt(s, a, b, k)
    ensures var q := s[..b + |KindName(k)|];
      HeadAt(q, a, b, k) && q[b..] == KindName(k)
  {
    var e := b + |KindName(k)|;
    var q := s[..e];
    assert q[b..e] == s[b..e];
    assert q[b..] == q[b..e];
  }

  /** Lines ending in a carriage return (the lines of CRLF text split on `'\n'`)
      never match: `.` does not match `'\r'` and `$` is the end of the line. */
  lemma CarriageReturnLineDropped(line: string)
    requires |line| > 0 && line[|line| - 1] == '\r'
    ensures MatchLine(line) == None
  {
    if HeadMatch(line).Head? {
      var rest := line[HeadMatch(line).end..];
      if TailStart(rest).Some? {
        TailSound(rest);
      }
    }
  }

  /** `text.split('\n').filter(line => line.trim())`. */
  function NonBlankLines(text: string): (r: seq<string>)
    ensures forall line :: line in r ==> '\n' !in line && Trim(line) != []
    ensures forall line :: line in r <==> line in Split(text, '\n') && Trim(line) != []
  {
    Filter(Split(text, '\n'), (line: string) => Trim(line) != [])
  }

  /** The kept lines of two blocks joined by a line break are those of the
      first, then those of the second: line order is kept. */
  lemma NonBlankLinesAppend(a: string, b: string)
    ensures NonBlankLines(a + "\n" + b) == NonBlankLines(a) + NonBlankLines(b)
  {
    SplitAppend(a, b, '\n');
    assert a + "\n" + b == a + ['\n'] + b;
    FilterAppend(Split(a, '\n'), Split(b, '\n'), (line: string) => Trim(line) != []);
  }

  /** `convertToJson`, up to the final `JSON.stringify`. */
  function ConvertToJson(text: string): (r: seq<Converted>)
    ensures |r| <= |NonBlankLines(text)|
  {
    // `.map(line => match ...).filter(q => q !== null)`
    Collect(NonBlankLines(text), MatchLine)
  }

  /** What one line contributes: nothing if it is blank or does not match,
      else its match. */
  lemma ConvertOneLine(line: string)
    requires '\n' !in line
    ensures ConvertToJson(line) == if Trim(line) == [] || MatchLine(line).None? then [] else [MatchLine(line).value]
  {
    SplitNoSeparator(line, '\n');
    assert Split(line, '\n')[1..] == [];
  }

  /** Lines are converted independently and in order: the records of two blocks
      joined by a line break are the records of the first, then those of the second. */
  lemma ConvertAppend(a: string, b: string)
    ensures ConvertToJson(a + "\n" + b) == ConvertToJson(a) + ConvertToJson(b)
  {
    NonBlankLinesAppend(a, b);
    CollectAppend(NonBlankLines(a), NonBlankLines(b), MatchLine);
  }

  /** `MatchLine` from where the head match ends and where the third group starts. */
  lemma MatchLineFrom(line: string, e: nat, k: Kind, c: nat)
    requires HeadMatch(line) == Head(e, k) && TailStart(line[e..]) == Some(c)
    ensures MatchLine(line) == Some(Converted(line[..e], k, Trim(line[e..][c..])))
  {
  }

  /** The third group starts at the first character that is not white space,
      when there is one and no line terminator follows. */
  lemma TailStartAt(rest: string, w: nat)
    requires w < |rest| && !IsSpace(rest[w])
    requires forall j :: 0 <= j < w ==> IsSpace(rest[j])
    requires NoTerminator(rest[w..])
    ensures TailStart(rest) == Some(w)
  {
    RunExact(rest, 0, IsSpace, w);
  }

  /** No separator is needed after the tag. */
  lemma ExampleNoSeparator()
    ensures MatchLine("#12WFDHi") == Some(Converted("#12WFD", WFD, "Hi"))
  {
    var s := "#12WFDHi";
    ExampleNoSeparatorHead();
    ExampleNoSeparatorParts();
    ExampleLetterTail();
    MatchLineFrom(s, 6, WFD, 0);
  }

  lemma ExampleNoSeparatorHead()
    ensures HeadMatch("#12WFDHi") == Head(6, WFD)
  {
    var s := "#12WFDHi";
    assert HeadAt(s, 3, 3, WFD) by {
      assert s[3..6] == "WFD";
      assert IsDigit(s[1]) && IsDigit(s[2]);
    }
    HeadComplete(s, 3, 3, WFD);
  }

  lemma ExampleNoSeparatorParts()
    ensures "#12WFDHi"[..6] == "#12WFD" && "#12WFDHi"[6..] == "Hi"
  {
  }

  lemma ExampleLetterTail()
    ensures TailStart("Hi") == Some(0) && Trim("Hi"[0..]) == "Hi"
  {
    assert "Hi"[0..] == "Hi";
    TailStartAt("Hi", 0);
    TrimNoSpace("Hi");
  }

  /** White space between the digits and the tag is kept as typed. */
  lemma ExampleSpacesKept()
    ensures MatchLine("#7  RS Go.") == Some(Converted("#7  RS", RS, "Go."))
  {
    var s := "#7  RS Go.";
    ExampleSpacesHead();
    ExampleSpacesParts();
    ExampleSpaceTail();
    MatchLineFrom(s, 6, RS, 1);
  }

  lemma ExampleSpacesHead()
    ensures HeadMatch("#7  RS Go.") == Head(6, RS)
  {
    var s := "#7  RS Go.";
    assert HeadAt(s, 2, 4, RS) by {
      assert s[4..6] == "RS";
      assert IsDigit(s[1]) && IsSpace(s[2]) && IsSpace(s[3]);
    }
    HeadComplete(s, 2, 4, RS);
  }

  lemma ExampleSpacesParts()
    ensures "#7  RS Go."[..6] == "#7  RS" && "#7  RS Go."[6..] == " Go."
  {
  }

  lemma ExampleSpaceTail()
    ensures TailStart(" Go.") == Some(1) && Trim(" Go."[1..]) == "Go."
  {
    var rest := " Go.";
    assert rest[1..] == "Go.";
    TailStartAt(rest, 1);
    TrimNoSpace("Go.");
  }

  /** A tag followed only by white space gives empty content: `\s*` gives
      back one space for `.+`, which trimming then removes. */
  lemma ExampleEmptyContent()
    ensures MatchLine("#5 WFD  ") == Some(Converted("#5 WFD", WFD, ""))
  {
    var s := "#5 WFD  ";
    ExampleEmptyContentHead();
    ExampleEmptyContentParts();
    ExampleAllSpaceTail();
    MatchLineFrom(s, 6, WFD, 1);
  }

  lemma ExampleEmptyContentHead()
    ensures HeadMatch("#5 WFD  ") == Head(6, WFD)
  {
    var s := "#5 WFD  ";
    assert HeadAt(s, 2, 3, WFD) by {
      assert s[3..6] == "WFD";
      assert IsDigit(s[1]) && IsSpace(s[2]);
    }
    HeadComplete(s, 2, 3, WFD);
  }

  lemma ExampleEmptyContentParts()
    ensures "#5 WFD  "[..6] == "#5 WFD" && "#5 WFD  "[6..] == "  "
  {
  }

  lemma ExampleAllSpaceTail()
    ensures TailStart("  ") == Some(1) && Trim("  "[1..]) == ""
  {
    RunExact("  ", 0, IsSpace, 2);
    assert "  "[1..] == " ";
    assert AllSpace(" ");
  }
}
