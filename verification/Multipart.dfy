/** A `multipart/form-data` body as a browser builds one, and as section 5.1.1 of RFC 2046 and
    section 4 of RFC 7578 have it read. A character here is a byte. */
module Multipart {
  import opened Wrappers

  datatype Part = Plain(name: string, value: string) | File(name: string, filename: string, kind: string, value: string)

  const CR := '\r'
  const LF := '\n'
  const QUOTE := '"'
  const CRLF: string := [CR, LF]
  const DASHES: string := "--"
  const NAMED: string := "Content-Disposition: form-data; name=\""
  const CALLED: string := "; filename=\""
  const TYPED: string := "Content-Type: "

  // ---- Written ------------------------------------------------------------------------

  /** The lines before a part's value. */
  function Head(p: Part): string {
    match p
    case Plain(name, _) => NAMED + name + [QUOTE] + CRLF + CRLF
    case File(name, filename, kind, _) =>
      NAMED + name + [QUOTE] + CALLED + filename + [QUOTE] + CRLF + TYPED + kind + CRLF + CRLF
  }

  function Body(p: Part): string {
    Head(p) + p.value
  }

  function Delimiter(boundary: string): string {
    CRLF + DASHES + boundary
  }

  /** What follows a boundary. */
  function After(parts: seq<Part>, boundary: string): string {
    if parts == [] then DASHES + CRLF
    else CRLF + Body(parts[0]) + Delimiter(boundary) + After(parts[1..], boundary)
  }

  function Printed(parts: seq<Part>, boundary: string): string {
    DASHES + boundary + After(parts, boundary)
  }

  function Joined(chunks: seq<string>): string {
    if chunks == [] then "" else chunks[0] + Joined(chunks[1..])
  }

  lemma {:induction false} JoinedOnto(chunks: seq<string>, chunk: string)
    ensures Joined(chunks + [chunk]) == Joined(chunks) + chunk
  {
    if chunks == [] {
      assert chunks + [chunk] == [chunk];
      assert Joined([chunk]) == chunk + Joined([]);
    } else {
      assert (chunks + [chunk])[1..] == chunks[1..] + [chunk];
      JoinedOnto(chunks[1..], chunk);
    }
  }

  /** What is left to write: a boundary, its part and a line end for each, then the last boundary. */
  function Rest(parts: seq<Part>, boundary: string): string {
    if parts == [] then DASHES + boundary + DASHES + CRLF
    else DASHES + boundary + CRLF + Body(parts[0]) + CRLF + Rest(parts[1..], boundary)
  }

  lemma Regrouped(mark: string, end: string, body: string, after: string)
    ensures mark + end + body + end + (mark + after) == mark + (end + body + (end + mark) + after)
  {
    var tail := end + mark + after;
    assert end + (mark + after) == tail;
    assert mark + end + body + end + (mark + after) == (mark + end + body) + tail;
    assert end + body + (end + mark) + after == (end + body) + tail;
    assert (mark + end + body) + tail == mark + ((end + body) + tail);
  }

  lemma {:induction false} RestIsPrinted(parts: seq<Part>, boundary: string)
    ensures Rest(parts, boundary) == Printed(parts, boundary)
  {
    hide Body;
    var mark := DASHES + boundary;
    if parts == [] {
      assert mark + DASHES + CRLF == mark + (DASHES + CRLF);
    } else {
      RestIsPrinted(parts[1..], boundary);
      Regrouped(mark, CRLF, Body(parts[0]), After(parts[1..], boundary));
      assert CRLF + mark == Delimiter(boundary);
    }
  }

  /** What one part adds to the chunks. */
  function Chunks(p: Part, boundary: string): seq<string> {
    match p
    case Plain(name, value) => [DASHES + boundary + CRLF, NAMED + name + [QUOTE] + CRLF + CRLF + value + CRLF]
    case File(name, filename, kind, value) =>
      [DASHES + boundary + CRLF,
       NAMED + name + [QUOTE] + CALLED + filename + [QUOTE] + CRLF + TYPED + kind + CRLF + CRLF, value, CRLF]
  }

  lemma JoinedTwo(a: string, b: string)
    ensures Joined([a, b]) == a + b
  {
    assert [a, b][1..] == [b] && [b][1..] == [];
    assert Joined([b]) == b + Joined([]) == b;
  }

  lemma ChunksJoin(p: Part, boundary: string)
    ensures Joined(Chunks(p, boundary)) == DASHES + boundary + CRLF + Body(p) + CRLF
  {
    hide Head;
    var first := DASHES + boundary + CRLF;
    match p {
      case Plain(name, value) =>
        assert Head(p) == NAMED + name + [QUOTE] + CRLF + CRLF by { HeadOfPlain(p); }
        JoinedTwo(first, Head(p) + value + CRLF);
        assert first + (Head(p) + value + CRLF) == first + (Head(p) + value) + CRLF;
      case File(name, filename, kind, value) =>
        HeadOfFile(p);
        var chunks := [first, Head(p), value, CRLF];
        assert chunks[1..] == [Head(p), value, CRLF] && chunks[1..][1..] == [value, CRLF];
        JoinedTwo(value, CRLF);
        assert Joined(chunks) == first + (Head(p) + (value + CRLF));
        Nested(first, Head(p), value, CRLF);
    }
  }

  lemma Nested(a: string, b: string, c: string, d: string)
    ensures a + (b + (c + d)) == a + (b + c) + d
  {
    assert b + (c + d) == (b + c) + d;
  }

  lemma HeadOfPlain(p: Part)
    requires p.Plain?
    ensures Head(p) == NAMED + p.name + [QUOTE] + CRLF + CRLF
  {
  }

  lemma HeadOfFile(p: Part)
    requires p.File?
    ensures Head(p) == NAMED + p.name + [QUOTE] + CALLED + p.filename + [QUOTE] + CRLF + TYPED + p.kind + CRLF + CRLF
  {
  }

  lemma {:induction false} JoinedAll(a: seq<string>, b: seq<string>)
    ensures Joined(a + b) == Joined(a) + Joined(b)
  {
    if a == [] {
      assert a + b == b;
    } else {
      assert (a + b)[1..] == a[1..] + b;
      JoinedAll(a[1..], b);
      assert a[0] + (Joined(a[1..]) + Joined(b)) == a[0] + Joined(a[1..]) + Joined(b);
    }
  }

  /** Chunk by chunk, joined at the end. */
  method Print(parts: seq<Part>, boundary: string) returns (body: string)
    ensures body == Printed(parts, boundary)
  {
    hide Body, Joined;
    var chunks: seq<string> := [];
    NothingJoined();
    for i := 0 to |parts|
      invariant Joined(chunks) + Rest(parts[i..], boundary) == Rest(parts, boundary)
    {
      ghost var before := chunks;
      assert parts[i..][0] == parts[i] && parts[i..][1..] == parts[i + 1..];
      chunks := chunks + [DASHES + boundary + CRLF];
      match parts[i] {
        case Plain(name, value) =>
          chunks := chunks + [NAMED + name + [QUOTE] + CRLF + CRLF + value + CRLF];
        case File(name, filename, kind, value) =>
          chunks := chunks + [NAMED + name + [QUOTE] + CALLED + filename + [QUOTE] + CRLF + TYPED + kind + CRLF + CRLF];
          chunks := chunks + [value, CRLF];
      }
      assert chunks == before + Chunks(parts[i], boundary);
      JoinedAll(before, Chunks(parts[i], boundary));
      ChunksJoin(parts[i], boundary);
      Onward(Joined(before), DASHES + boundary + CRLF + Body(parts[i]) + CRLF, Rest(parts[i + 1..], boundary));
    }
    JoinedOnto(chunks, DASHES + boundary + DASHES + CRLF);
    chunks := chunks + [DASHES + boundary + DASHES + CRLF];
    RestIsPrinted(parts, boundary);
    body := Joined(chunks);
  }

  lemma NothingJoined()
    ensures Joined([]) == ""
  {
  }

  lemma Onward(before: string, chunk: string, rest: string)
    ensures (before + chunk) + rest == before + (chunk + rest)
  {
  }

  // ---- Read ---------------------------------------------------------------------------

  predicate Here(s: string, p: string, i: nat) {
    i + |p| <= |s| && s[i..i + |p|] == p
  }

  function IndexFrom(s: string, p: string, i: nat): (at: Option<nat>)
    ensures at.Some? ==> i <= at.value && Here(s, p, at.value)
    ensures forall k :: i <= k && (at.Some? ==> k < at.value) ==> !Here(s, p, k)
    decreases |s| - i
  {
    if i + |p| > |s| then None else if s[i..i + |p|] == p then Some(i) else IndexFrom(s, p, i + 1)
  }

  datatype Halves = Halves(before: string, after: string)

  /** The text either side of the first `p`. */
  function Split(s: string, p: string): Option<Halves> {
    var at := IndexFrom(s, p, 0);
    if at.None? then None else Some(Halves(s[..at.value], s[at.value + |p|..]))
  }

  function Opens(s: string, p: string): bool {
    p <= s
  }

  /** A part: its disposition, its type if it is a file's, an empty line, its value. */
  function ReadPart(text: string): Option<Part> {
    var first := Split(text, CRLF);
    if first.None? || !Opens(first.value.before, NAMED) then None
    else
      var named := Split(first.value.before[|NAMED|..], [QUOTE]);
      if named.None? then None
      else if named.value.after == "" then
        if Opens(first.value.after, CRLF) then Some(Plain(named.value.before, first.value.after[2..])) else None
      else ReadFile(named.value.before, named.value.after, first.value.after)
  }

  function ReadFile(name: string, more: string, rest: string): Option<Part> {
    if !Opens(more, CALLED) then None
    else
      var called := Split(more[|CALLED|..], [QUOTE]);
      var second := Split(rest, CRLF);
      if called.None? || called.value.after != "" || second.None? || !Opens(second.value.before, TYPED) then None
      else if !Opens(second.value.after, CRLF) then None
      else Some(File(name, called.value.before, second.value.before[|TYPED|..], second.value.after[2..]))
  }

  /** Spaces and tabs a gateway may have put after a boundary. */
  function Unpadded(s: string): (rest: string)
    ensures |rest| <= |s|
  {
    if s != "" && (s[0] == ' ' || s[0] == '\t') then Unpadded(s[1..]) else s
  }

  /** The parts, from just after a boundary: each ends where the next boundary stands at the start of
      a line, and what follows the last one is passed over. */
  function ReadParts(s: string, boundary: string): Option<seq<Part>>
    decreases |s|
  {
    if Opens(s, DASHES) then Some([])
    else if !Opens(Unpadded(s), CRLF) then None
    else
      var halves := Split(Unpadded(s)[2..], Delimiter(boundary));
      if halves.None? then None
      else
        var part, parts := ReadPart(halves.value.before), ReadParts(halves.value.after, boundary);
        if part.None? || parts.None? then None else Some([part.value] + parts.value)
  }

  function Read(s: string, boundary: string): Option<seq<Part>> {
    if Opens(s, DASHES + boundary) then ReadParts(s[2 + |boundary|..], boundary)
    else
      var halves := Split(s, Delimiter(boundary));
      if halves.None? then None else ReadParts(halves.value.after, boundary)
  }

  // ---- What may be written ------------------------------------------------------------

  predicate Unbroken(s: string) {
    forall i :: 0 <= i < |s| ==> s[i] != CR
  }

  /** Fit to stand between quotes, or at the end of a header line. */
  predicate Quotable(s: string) {
    forall i :: 0 <= i < |s| ==> s[i] != CR && s[i] != LF && s[i] != QUOTE
  }

  predicate WellNamed(p: Part) {
    Quotable(p.name) && (p.File? ==> Quotable(p.filename) && Quotable(p.kind))
  }

  /** No line of it begins as a boundary does: its first line no more than the others. */
  ghost predicate Clear(value: string, boundary: string) {
    forall i :: !Here(CRLF + value, Delimiter(boundary), i)
  }

  ghost predicate AllClear(parts: seq<Part>, boundary: string) {
    forall i :: 0 <= i < |parts| ==> Clear(parts[i].value, boundary)
  }

  // ---- Where a delimiter is first found -----------------------------------------------

  /** Standing there, it stands there character by character. */
  lemma Stands(s: string, p: string, k: nat, j: nat)
    requires j < |p|
    ensures Here(s, p, k) ==> k + j < |s| && s[k + j] == p[j]
  {
    if Here(s, p, k) {
      assert s[k..k + |p|][j] == p[j];
    }
  }

  /** Past an unbroken line, it can only stand at the line's end or after it. */
  lemma PastALine(line: string, rest: string, boundary: string, i: nat)
    requires Unbroken(line) && Here(line + CRLF + rest, Delimiter(boundary), i)
    ensures i >= |line| && Here(CRLF + rest, Delimiter(boundary), i - |line|)
  {
    var s, d := line + CRLF + rest, Delimiter(boundary);
    assert s[i..i + |d|][0] == d[0] == CR;
    assert s[i] == CR;
    assert s == line + (CRLF + rest);
    assert s[i..i + |d|] == (CRLF + rest)[i - |line|..i - |line| + |d|];
  }

  /** And past an empty line it cannot stand at the one before. */
  lemma PastALineEnd(line: string, rest: string, boundary: string, i: nat)
    requires line == "" || line[0] != '-'
    requires line != "" || Opens(rest, CRLF)
    requires Here(CRLF + line + rest, Delimiter(boundary), i)
    ensures i >= 2 && Here(line + rest, Delimiter(boundary), i - 2)
  {
    hide Here, Delimiter;
    var s, d := CRLF + line + rest, Delimiter(boundary);
    DelimiterIs(boundary);
    Stands(s, d, i, 0);
    Stands(s, d, i, 2);
    AfterALineEnd(line, rest);
    assert s == CRLF + (line + rest);
    Back(CRLF, line + rest, d, i);
  }

  lemma DelimiterIs(boundary: string)
    ensures |Delimiter(boundary)| >= 4 && Delimiter(boundary)[0] == CR && Delimiter(boundary)[2] == '-'
  {
  }

  lemma AfterALineEnd(line: string, rest: string)
    requires line == "" || line[0] != '-'
    requires line != "" || Opens(rest, CRLF)
    ensures var s := CRLF + line + rest; s[1] == LF && (|s| > 2 ==> s[2] != '-')
  {
    if line == "" {
      assert rest[..2] == CRLF;
    }
  }

  lemma Back(before: string, s: string, p: string, i: nat)
    requires Here(before + s, p, i) && i >= |before|
    ensures Here(s, p, i - |before|)
  {
    assert (before + s)[i..i + |p|] == s[i - |before|..i - |before| + |p|];
  }
}
