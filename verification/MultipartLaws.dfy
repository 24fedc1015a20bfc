/** A printed body is read back as exactly the parts it was made of, exactly when no line of a value
    begins as a boundary does. */
module MultipartLaws {
  import opened Wrappers
  import opened Multipart

  // ---- Splitting ----------------------------------------------------------------------

  lemma SplitAt(before: string, p: string, after: string)
    requires forall k :: 0 <= k < |before| ==> !Here(before + p + after, p, k)
    ensures Split(before + p + after, p) == Some(Halves(before, after))
  {
    var s := before + p + after;
    assert Here(s, p, |before|);
    assert s[..|before|] == before && s[|before| + |p|..] == after;
  }

  lemma SplitLine(line: string, rest: string)
    requires Unbroken(line)
    ensures Split(line + CRLF + rest, CRLF) == Some(Halves(line, rest))
  {
    var s := line + CRLF + rest;
    forall k | 0 <= k < |line| ensures !Here(s, CRLF, k) {
      Stands(s, CRLF, k, 0);
    }
    SplitAt(line, CRLF, rest);
  }

  lemma SplitQuoted(name: string, more: string)
    requires Quotable(name)
    ensures Split(name + [QUOTE] + more, [QUOTE]) == Some(Halves(name, more))
  {
    var s := name + [QUOTE] + more;
    forall k | 0 <= k < |name| ensures !Here(s, [QUOTE], k) {
      Stands(s, [QUOTE], k, 0);
    }
    SplitAt(name, [QUOTE], more);
  }

  // ---- One part -----------------------------------------------------------------------

  /** The disposition line, without its end. */
  function Line(p: Part): string {
    match p
    case Plain(name, _) => NAMED + name + [QUOTE]
    case File(name, filename, _, _) => NAMED + name + [QUOTE] + (CALLED + filename + [QUOTE])
  }

  /** What the line says after the name. */
  function Called(p: Part): string {
    if p.File? then CALLED + p.filename + [QUOTE] else ""
  }

  lemma LineIs(p: Part)
    ensures Line(p) == NAMED + (p.name + [QUOTE] + Called(p))
  {
    Shifted(NAMED, p.name, [QUOTE], Called(p));
    assert NAMED + p.name + [QUOTE] + "" == NAMED + p.name + [QUOTE];
  }

  lemma Shifted(a: string, b: string, c: string, d: string)
    ensures a + b + c + d == a + (b + c + d)
  {
  }

  lemma LineIsUnbroken(p: Part)
    requires WellNamed(p)
    ensures Unbroken(Line(p)) && Opens(Line(p), NAMED) && Line(p)[|NAMED|..] == p.name + [QUOTE] + Called(p)
  {
    LineIs(p);
    assert Unbroken(NAMED) && Unbroken(CALLED);
    assert Unbroken(Called(p)) && Unbroken(p.name);
    Joins(NAMED, p.name + [QUOTE] + Called(p));
  }

  lemma Joins(a: string, b: string)
    ensures Opens(a + b, a) && (a + b)[|a|..] == b
    ensures Unbroken(a) && Unbroken(b) ==> Unbroken(a + b)
  {
  }

  /** The lines after it. */
  function More(p: Part): string {
    if p.File? then TYPED + p.kind + CRLF else ""
  }

  lemma HeadIs(p: Part)
    ensures Head(p) == Line(p) + CRLF + (More(p) + CRLF)
  {
    match p {
      case Plain(name, value) =>
        assert More(p) + CRLF == CRLF;
      case File(name, filename, kind, value) =>
        FileHead(NAMED + name + [QUOTE], CALLED, filename, [QUOTE], CRLF, TYPED, kind);
    }
  }

  lemma FileHead(a: string, b: string, c: string, d: string, e: string, f: string, g: string)
    ensures a + b + c + d + e + f + g + e + e == a + (b + c + d) + e + (f + g + e + e)
  {
    assert a + b + c + d == a + (b + c + d);
    assert e + f + g + e + e == e + (f + g + e + e);
  }

  lemma Regrouped(line: string, end: string, more: string, value: string)
    ensures line + end + (more + end) + value == line + end + (more + end + value)
  {
  }

  /** With the empty line there, the part is read with whatever follows as its value; without it,
      none is. */
  lemma ReadWithValue(p: Part, value: string)
    requires WellNamed(p)
    ensures ReadPart(Head(p) + value) == Some(p.(value := value))
  {
    HeadIs(p);
    LineIsUnbroken(p);
    hide Head, Line, Split;
    var rest := More(p) + CRLF + value;
    Regrouped(Line(p), CRLF, More(p), value);
    SplitLine(Line(p), rest);
    SplitQuoted(p.name, Called(p));
    if p.File? {
      FileRead(p, value);
    } else {
      assert rest == CRLF + value;
      Joins(CRLF, value);
    }
  }

  lemma FileRead(p: Part, value: string)
    requires WellNamed(p) && p.File?
    ensures ReadFile(p.name, CALLED + p.filename + [QUOTE], More(p) + CRLF + value) == Some(p.(value := value))
  {
    var more, rest := CALLED + p.filename + [QUOTE], More(p) + CRLF + value;
    assert more[|CALLED|..] == p.filename + [QUOTE] + "";
    SplitQuoted(p.filename, "");
    assert Unbroken(TYPED + p.kind);
    assert rest == (TYPED + p.kind) + CRLF + (CRLF + value);
    SplitLine(TYPED + p.kind, CRLF + value);
    assert (TYPED + p.kind)[|TYPED|..] == p.kind;
    assert (CRLF + value)[2..] == value;
  }

  lemma ReadWithoutEmptyLine(p: Part)
    requires WellNamed(p)
    ensures ReadPart(Line(p) + CRLF + More(p)) == None
  {
    hide Head, Line, Split;
    LineIsUnbroken(p);
    SplitLine(Line(p), More(p));
    SplitQuoted(p.name, Called(p));
    if p.File? {
      assert Unbroken(TYPED + p.kind);
      assert More(p) == (TYPED + p.kind) + CRLF + "";
      SplitLine(TYPED + p.kind, "");
    }
  }

  // ---- Where its delimiter is found ---------------------------------------------------

  /** In a part's text a delimiter can stand only where one stands in the value, taken with the line
      end before it. */
  lemma InTheValue(p: Part, value: string, boundary: string, i: nat)
    requires WellNamed(p) && Here(Head(p) + value, Delimiter(boundary), i)
    ensures i >= |Head(p)| - 2 && Here(CRLF + value, Delimiter(boundary), i - (|Head(p)| - 2))
  {
    hide Here, Head, Line, Delimiter;
    HeadIs(p);
    LineIsUnbroken(p);
    var rest := More(p) + CRLF + value;
    Regrouped(Line(p), CRLF, More(p), value);
    PastALine(Line(p), rest, boundary, i);
    if p.File? {
      InTheFile(TYPED + p.kind, value, boundary, i - |Line(p)|);
    } else {
      assert More(p) + CRLF + value == CRLF + value;
      PastNothing(value, boundary, i - |Line(p)|);
    }
  }

  lemma PastNothing(value: string, boundary: string, i: nat)
    requires Here(CRLF + (CRLF + value), Delimiter(boundary), i)
    ensures i >= 2 && Here(CRLF + value, Delimiter(boundary), i - 2)
  {
    hide Here, Delimiter;
    assert CRLF + (CRLF + value) == CRLF + "" + (CRLF + value);
    PastALineEnd("", CRLF + value, boundary, i);
    assert "" + (CRLF + value) == CRLF + value;
  }

  lemma InTheFile(line: string, value: string, boundary: string, i: nat)
    requires Unbroken(line) && line != "" && line[0] != '-'
    requires Here(CRLF + (line + CRLF + CRLF + value), Delimiter(boundary), i)
    ensures i >= |line| + 4 && Here(CRLF + value, Delimiter(boundary), i - |line| - 4)
  {
    hide Here, Delimiter;
    var end := CRLF + (CRLF + value);
    assert CRLF + (line + CRLF + CRLF + value) == CRLF + line + end;
    PastALineEnd(line, end, boundary, i);
    assert line + end == line + CRLF + (CRLF + value);
    PastALine(line, CRLF + value, boundary, i - 2);
    PastNothing(value, boundary, i - 2 - |line|);
  }

  lemma MovedOn(before: string, s: string, p: string, i: nat)
    requires Here(s, p, i)
    ensures Here(before + s, p, |before| + i)
  {
    assert (before + s)[|before| + i..|before| + i + |p|] == s[i..i + |p|];
  }

  /** And there it does stand. */
  lemma FromTheValue(p: Part, value: string, boundary: string, i: nat)
    requires Here(CRLF + value, Delimiter(boundary), i)
    ensures |Head(p)| >= 2 && Here(Head(p) + value, Delimiter(boundary), |Head(p)| - 2 + i)
  {
    hide Head, Line, Delimiter;
    HeadIs(p);
    var before := Line(p) + CRLF + More(p);
    Shifted(Line(p), CRLF, More(p), CRLF);
    assert before + CRLF == Head(p);
    Onward(before, CRLF, value);
    MovedOn(before, CRLF + value, Delimiter(boundary), i);
  }

  /** The delimiter written after a text cannot begin within it, unless it stands there whole. */
  lemma NoOverlap(text: string, boundary: string, after: string, k: nat)
    requires Unbroken(boundary) && k < |text| && Here(text + Delimiter(boundary) + after, Delimiter(boundary), k)
    ensures Here(text, Delimiter(boundary), k)
  {
    var d := Delimiter(boundary);
    var s := text + d + after;
    if k + |d| > |text| {
      OnlyStarts(boundary, |text| - k);
      Stands(s, d, k, |text| - k);
    } else {
      assert s[k..k + |d|] == text[k..k + |d|];
    }
  }

  lemma OnlyStarts(boundary: string, j: nat)
    requires Unbroken(boundary) && 0 < j < |Delimiter(boundary)|
    ensures Delimiter(boundary)[j] != CR && Delimiter(boundary)[0] == CR
  {
  }

  lemma FoundAtTheEnd(p: Part, boundary: string, after: string)
    requires WellNamed(p) && Unbroken(boundary) && Clear(p.value, boundary)
    ensures Split(Body(p) + Delimiter(boundary) + after, Delimiter(boundary)) == Some(Halves(Body(p), after))
  {
    var d := Delimiter(boundary);
    forall k | 0 <= k < |Body(p)| ensures !Here(Body(p) + d + after, d, k) {
      if Here(Body(p) + d + after, d, k) {
        NoOverlap(Body(p), boundary, after, k);
        InTheValue(p, p.value, boundary, k);
      }
    }
    SplitAt(Body(p), d, after);
  }

  /** Found early, it cuts the value short. */
  lemma FoundEarly(p: Part, boundary: string, after: string)
    requires WellNamed(p) && Unbroken(boundary) && !Clear(p.value, boundary)
    ensures var halves := Split(Body(p) + Delimiter(boundary) + after, Delimiter(boundary));
      halves.Some? && ReadPart(halves.value.before) != Some(p)
  {
    hide Head, Delimiter, Line, ReadPart, Here, IndexFrom, More;
    var d := Delimiter(boundary);
    var s := Body(p) + d + after;
    var at := EarlyOne(p, boundary, after);
    HeadIs(p);
    var before := Line(p) + CRLF + More(p);
    Shifted(Line(p), CRLF, More(p), CRLF);
    if at == |before| {
      assert s[..at] == before;
      ReadWithoutEmptyLine(p);
    } else {
      CutShort(p, boundary, after, at);
    }
  }

  lemma EarlyOne(p: Part, boundary: string, after: string) returns (at: nat)
    requires WellNamed(p) && Unbroken(boundary) && !Clear(p.value, boundary)
    ensures IndexFrom(Body(p) + Delimiter(boundary) + after, Delimiter(boundary), 0) == Some(at)
    ensures |Head(p)| - 2 <= at < |Body(p)| && Here(Body(p), Delimiter(boundary), at)
  {
    hide Head, Delimiter, Line;
    var d := Delimiter(boundary);
    var i :| Here(CRLF + p.value, d, i);
    FromTheValue(p, p.value, boundary, i);
    StandsStill(Body(p), d + after, d, |Head(p)| - 2 + i);
    assert Body(p) + (d + after) == Body(p) + d + after;
    at := IndexFrom(Body(p) + d + after, d, 0).value;
    LongEnough(boundary);
    NoOverlap(Body(p), boundary, after, at);
    InTheValue(p, p.value, boundary, at);
  }

  lemma LongEnough(boundary: string)
    ensures |Delimiter(boundary)| >= 4
  {
  }

  lemma StandsStill(s: string, after: string, p: string, i: nat)
    requires Here(s, p, i)
    ensures Here(s + after, p, i)
  {
    assert (s + after)[i..i + |p|] == s[i..i + |p|];
  }

  lemma CutShort(p: Part, boundary: string, after: string, at: nat)
    requires WellNamed(p) && |Head(p)| - 2 < at < |Body(p)| && Here(Body(p), Delimiter(boundary), at)
    ensures ReadPart((Body(p) + Delimiter(boundary) + after)[..at]) != Some(p)
  {
    var s := Body(p) + Delimiter(boundary) + after;
    HeadIs(p);
    if at == |Head(p)| - 1 {
      assert Head(p)[at] == LF;
      Stands(Body(p), Delimiter(boundary), at, 0);
    } else {
      var m := at - |Head(p)|;
      assert s[..at] == Head(p) + p.value[..m];
      ReadWithValue(p, p.value[..m]);
    }
  }

  // ---- The whole body -----------------------------------------------------------------

  predicate AllNamed(parts: seq<Part>) {
    forall i :: 0 <= i < |parts| ==> WellNamed(parts[i])
  }

  /** One part on, if it is read at all. */
  lemma ReadOn(text: string, boundary: string)
    ensures var halves := Split(text, Delimiter(boundary));
      ReadParts(CRLF + text, boundary) ==
        if halves.None? then None
        else
          var part, parts := ReadPart(halves.value.before), ReadParts(halves.value.after, boundary);
          if part.None? || parts.None? then None else Some([part.value] + parts.value)
  {
    hide Split, ReadPart, Delimiter;
    var s := CRLF + text;
    assert s[0] == CR && s[..2] == CRLF && s[2..] == text;
    assert Unpadded(s) == s && !Opens(s, DASHES);
  }

  lemma FirstWritten(parts: seq<Part>, boundary: string)
    requires parts != []
    ensures After(parts, boundary) == CRLF + (Body(parts[0]) + Delimiter(boundary) + After(parts[1..], boundary))
  {
    hide Body, Delimiter;
    Shifted(CRLF, Body(parts[0]), Delimiter(boundary), After(parts[1..], boundary));
  }

  lemma {:induction false} PartsReadBack(parts: seq<Part>, boundary: string)
    requires AllNamed(parts) && Unbroken(boundary)
    ensures ReadParts(After(parts, boundary), boundary) == Some(parts) <==> AllClear(parts, boundary)
  {
    hide Body, Delimiter, After, ReadParts, ReadPart, Split, AllClear, Clear, WellNamed, Unbroken;
    if parts != [] {
      var p, rest := parts[0], After(parts[1..], boundary);
      FirstWritten(parts, boundary);
      ReadOn(Body(p) + Delimiter(boundary) + rest, boundary);
      ClearOneByOne(parts, boundary);
      PartsReadBack(parts[1..], boundary);
      if Clear(p.value, boundary) {
        FoundAtTheEnd(p, boundary, rest);
        ReadWithValue(p, p.value);
        BodyIs(p);
        assert [p] + parts[1..] == parts;
        OneOn(p, parts, ReadParts(rest, boundary));
      } else {
        FoundEarly(p, boundary, rest);
      }
    } else {
      assert parts == [];
      NonePrinted(boundary);
    }
  }

  lemma NonePrinted(boundary: string)
    ensures ReadParts(After([], boundary), boundary) == Some([]) && AllClear([], boundary)
  {
    assert Opens(DASHES + CRLF, DASHES);
  }

  lemma BodyIs(p: Part)
    ensures Body(p) == Head(p) + p.value
  {
  }

  lemma OneOn(p: Part, parts: seq<Part>, others: Option<seq<Part>>)
    requires parts != [] && parts[0] == p
    ensures others.Some? ==> ([p] + others.value == parts <==> others.value == parts[1..])
  {
    if others.Some? {
      assert ([p] + others.value)[1..] == others.value;
      assert [p] + parts[1..] == parts;
    }
  }

  lemma ClearOneByOne(parts: seq<Part>, boundary: string)
    requires parts != []
    ensures AllClear(parts, boundary) <==> Clear(parts[0].value, boundary) && AllClear(parts[1..], boundary)
  {
    if AllClear(parts[1..], boundary) {
      forall i | 1 <= i < |parts| ensures Clear(parts[i].value, boundary) {
        assert parts[1..][i - 1] == parts[i];
      }
    }
  }

  /** What is written is read back as it was exactly when no line of a value begins as a boundary. */
  lemma ReadBackExactlyWhen(parts: seq<Part>, boundary: string)
    requires AllNamed(parts) && Unbroken(boundary)
    ensures Read(Printed(parts, boundary), boundary) == Some(parts) <==> AllClear(parts, boundary)
  {
    var mark := DASHES + boundary;
    assert Opens(Printed(parts, boundary), mark);
    assert Printed(parts, boundary)[|mark|..] == After(parts, boundary);
    PartsReadBack(parts, boundary);
  }

  /** So no two lists of parts are written alike. */
  lemma WrittenApart(a: seq<Part>, b: seq<Part>, boundary: string)
    requires AllNamed(a) && AllNamed(b) && Unbroken(boundary) && AllClear(a, boundary) && AllClear(b, boundary)
    requires Printed(a, boundary) == Printed(b, boundary)
    ensures a == b
  {
    ReadBackExactlyWhen(a, boundary);
    ReadBackExactlyWhen(b, boundary);
  }

  /** A value that begins with the boundary is lost, though no delimiter stands in it. */
  lemma AStartingBoundaryIsLost(name: string, boundary: string)
    requires Quotable(name) && Unbroken(boundary)
    ensures var value := DASHES + boundary;
      && (forall i :: !Here(value, Delimiter(boundary), i))
      && Read(Printed([Plain(name, value)], boundary), boundary) != Some([Plain(name, value)])
  {
    var value := DASHES + boundary;
    var parts := [Plain(name, value)];
    assert CRLF + value == Delimiter(boundary);
    assert Here(CRLF + value, Delimiter(boundary), 0);
    assert !Clear(parts[0].value, boundary);
    ReadBackExactlyWhen(parts, boundary);
  }
}
