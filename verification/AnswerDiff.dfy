/** Two servers' answers to one request compared: status, type, headers, the request id each echoes,
    and the body, the id each mints for an error aside. */
module AnswerDiff {
  import opened Wrappers
  import opened JsonDiff
  import opened JsonDiffLaws

  /** `media`: the content type without its parameters. `json`: the body parsed, if it parses. */
  datatype Answer = Answer(status: int, headers: map<string, string>, media: string, body: string, json: Option<Value>)

  datatype Finding =
    | OtherStatus | OtherType | OtherHeader(name: string) | NotEchoed(django: bool)
    | Unparseable | OtherBody | Within(difference: Difference)

  const ALWAYS: seq<string> := ["location", "allow", "www-authenticate"]
  const OF_A_DOWNLOAD: seq<string> :=
    ["content-disposition", "cache-control", "x-content-type-options", "content-length", "last-modified",
        "content-encoding"]
  const DISPOSITION := "content-disposition"
  const REQUEST_ID := "x-request-id"
  const ECHOED := 64

  function Header(a: Answer, name: string): Option<string> {
    if name in a.headers then Some(a.headers[name]) else None
  }

  // ---- The id minted for an error ---------------------------------------------------------

  function Put(fields: seq<Field>, name: string, value: Value): (after: seq<Field>)
    ensures |after| == |fields|
  {
    if fields == [] then []
    else if fields[0].name == name then [Field(name, value)] + fields[1..]
    else [fields[0]] + Put(fields[1..], name, value)
  }

  /** The error an answer's body carries, if it carries one with a request id. */
  function ErrorIn(v: Value): Option<Value> {
    if !v.Object? then None
    else
      var error := Find(v.fields, "error");
      if error.Some? && error.value.Object? && Find(error.value.fields, "request_id").Some? then error else None
  }

  const MASK := Text("<request-id>")

  function Masked(v: Value): Value {
    var error := ErrorIn(v);
    if error.None? then v
    else Object(Put(v.fields, "error", Object(Put(error.value.fields, "request_id", MASK))))
  }

  lemma {:induction false} PutNames(fields: seq<Field>, name: string, value: Value)
    ensures Names(Put(fields, name, value)) == Names(fields)
  {
    if fields != [] && fields[0].name != name {
      PutNames(fields[1..], name, value);
    }
  }

  lemma {:induction false} PutFinds(fields: seq<Field>, name: string, value: Value, key: string)
    ensures Find(Put(fields, name, value), key) ==
            if key == name && Find(fields, name).Some? then Some(value) else Find(fields, key)
  {
    if fields != [] && fields[0].name != name {
      PutFinds(fields[1..], name, value, key);
    }
  }

  lemma {:induction false} PutKeeps(fields: seq<Field>, name: string, value: Value)
    requires forall i :: 0 <= i < |fields| ==>
        Plain(fields[i].value) && fields[i].name != PROTO && WithoutProto(fields[i].value)
    requires Plain(value) && WithoutProto(value)
    ensures forall i :: 0 <= i < |fields| ==>
              var f := Put(fields, name, value)[i]; Plain(f.value) && f.name != PROTO && WithoutProto(f.value)
  {
    if fields != [] && fields[0].name != name {
      PutKeeps(fields[1..], name, value);
    }
  }

  /** What a JSON text says, without a key `__proto__`. */
  predicate Ordinary(v: Value) {
    Plain(v) && WithoutProto(v)
  }

  lemma MaskedIsOrdinary(v: Value)
    requires Ordinary(v)
    ensures Ordinary(Masked(v))
  {
    var error := ErrorIn(v);
    if error.Some? {
      PlainField(v.fields, "error");
      FieldWithoutProto(v.fields, "error");
      PutKeeps(error.value.fields, "request_id", MASK);
      PutKeeps(v.fields, "error", Object(Put(error.value.fields, "request_id", MASK)));
    }
  }

  /** The same body with another id minted. */
  function Minted(v: Value, id: Value): Value
    requires ErrorIn(v).Some?
  {
    Object(Put(v.fields, "error", Object(Put(ErrorIn(v).value.fields, "request_id", id))))
  }

  lemma {:induction false} PutTwice(fields: seq<Field>, name: string, first: Value, second: Value)
    ensures Put(Put(fields, name, first), name, second) == Put(fields, name, second)
  {
    if fields != [] && fields[0].name != name {
      PutTwice(fields[1..], name, first, second);
    }
  }

  /** Whatever ids the two sides mint, it is not what they are compared by. */
  lemma FreshIdsAreNotCompared(v: Value, id: Value)
    requires ErrorIn(v).Some?
    ensures Masked(Minted(v, id)) == Masked(v)
  {
    var error := ErrorIn(v).value;
    PutFinds(v.fields, "error", Object(Put(error.fields, "request_id", id)), "error");
    PutFinds(error.fields, "request_id", id, "request_id");
    PutTwice(error.fields, "request_id", id, MASK);
    PutTwice(v.fields, "error", Object(Put(error.fields, "request_id", id)),
        Object(Put(error.fields, "request_id", MASK)));
  }

  /** Alike, whatever each has under this key. */
  ghost predicate AlikeBut(a: Value, b: Value, key: string) {
    && a.Object? && b.Object?
    && (forall k :: k in Keys(a) <==> k in Keys(b))
    && forall k :: k in Keys(a) && k in Keys(b) && k != key ==> EqualAt(a, b, k)
  }

  lemma PutAt(f: seq<Field>, g: seq<Field>, name: string, x: Value, y: Value, k: string)
    requires k in Names(f) && k in Names(g)
    requires Names(Put(f, name, x)) == Names(f) && Names(Put(g, name, y)) == Names(g)
    ensures EqualAt(Object(Put(f, name, x)), Object(Put(g, name, y)), k) <==>
            if k == name then Equal(x, y) else EqualAt(Object(f), Object(g), k)
  {
    hide Put, Equal, Names;
    PutFinds(f, name, x, k);
    PutFinds(g, name, y, k);
    FieldIsLighter(f, k);
    FieldIsLighter(g, k);
  }

  lemma EqualObjects(a: Value, b: Value)
    requires a.Object? && b.Object?
    ensures Equal(a, b) <==>
            (forall k :: k in Keys(a) <==> k in Keys(b)) &&
            forall k :: k in Keys(a) && k in Keys(b) ==> EqualAt(a, b, k)
  {
    hide EqualAt;
  }

  lemma PutAlike(f: seq<Field>, g: seq<Field>, name: string, x: Value, y: Value)
    requires name in Names(f) && name in Names(g)
    ensures Equal(Object(Put(f, name, x)), Object(Put(g, name, y))) <==>
            AlikeBut(Object(f), Object(g), name) && Equal(x, y)
  {
    hide Put, EqualAt, Equal, Names, Find;
    var a, b := Object(Put(f, name, x)), Object(Put(g, name, y));
    PutNames(f, name, x);
    PutNames(g, name, y);
    forall k | k in Names(f) && k in Names(g)
      ensures EqualAt(a, b, k) <==> if k == name then Equal(x, y) else EqualAt(Object(f), Object(g), k)
    {
      PutAt(f, g, name, x, y, k);
    }
    assert Keys(a) == Keys(Object(f)) == Names(f) && Keys(b) == Keys(Object(g)) == Names(g);
    assert EqualAt(a, b, name) <==> Equal(x, y);
    EqualObjects(a, b);
  }

  /** An object under `error` with a request id in it. */
  predicate CarriesId(v: Value) {
    "error" in Keys(v) && Get(v, "error").Some? && "request_id" in Keys(Get(v, "error").value)
  }

  /** The bodies as they are compared: equal; or both with an error's id in them, and equal but for the two ids. */
  lemma AlikeExactlyWhen(a: Value, b: Value)
    ensures Equal(Masked(a), Masked(b)) <==>
      if !CarriesId(a) && !CarriesId(b) then Equal(a, b)
      else
        && CarriesId(a) && CarriesId(b)
        && AlikeBut(a, b, "error")
        && AlikeBut(Get(a, "error").value, Get(b, "error").value, "request_id")
  {
    CarriedId(a);
    CarriedId(b);
    if CarriesId(a) && CarriesId(b) {
      var x, y := ErrorIn(a).value, ErrorIn(b).value;
      PutAlike(x.fields, y.fields, "request_id", MASK, MASK);
      PutAlike(a.fields, b.fields, "error", Object(Put(x.fields, "request_id", MASK)),
          Object(Put(y.fields, "request_id", MASK)));
    } else if CarriesId(a) {
      AMissingIdIsSeen(a, b);
    } else if CarriesId(b) {
      AMissingIdIsSeen(b, a);
    }
  }

  lemma CarriedId(v: Value)
    ensures CarriesId(v) <==> ErrorIn(v).Some?
    ensures CarriesId(v) ==> v.Object? && ErrorIn(v) == Get(v, "error")
  {
    if v.Object? {
      FieldIsLighter(v.fields, "error");
      var error := Find(v.fields, "error");
      if error.Some? && error.value.Object? {
        FieldIsLighter(error.value.fields, "request_id");
      }
    }
  }

  /** But an id on one side alone is seen. */
  lemma AMissingIdIsSeen(a: Value, b: Value)
    requires ErrorIn(a).Some? && ErrorIn(b).None?
    ensures !Equal(Masked(a), Masked(b)) && !Equal(Masked(b), Masked(a))
  {
    hide Equal, EqualAt, Put;
    var error := ErrorIn(a).value;
    var masked := Object(Put(error.fields, "request_id", MASK));
    PutNames(a.fields, "error", masked);
    PutNames(error.fields, "request_id", MASK);
    PutFinds(a.fields, "error", masked, "error");
    FieldIsLighter(a.fields, "error");
    FieldIsLighter(error.fields, "request_id");
    if "error" !in Keys(b) {
      ExtraKey(Masked(a), b, "error");
    } else {
      FieldIsLighter(b.fields, "error");
      var other := Find(b.fields, "error").value;
      if other.Object? {
        FieldIsLighter(other.fields, "request_id");
      }
      ExtraKey(masked, other, "request_id");
      UnequalAt(Masked(a), b, "error");
    }
  }

  lemma ExtraKey(a: Value, b: Value, key: string)
    requires key in Keys(a) && key !in Keys(b)
    ensures !Equal(a, b) && !Equal(b, a)
  {
    hide EqualAt;
  }

  lemma UnequalAt(a: Value, b: Value, key: string)
    requires key in Keys(a) && key in Keys(b)
    requires Get(a, key).Some? && Get(b, key).Some?
    requires !Equal(Get(a, key).value, Get(b, key).value) && !Equal(Get(b, key).value, Get(a, key).value)
    ensures !Equal(a, b) && !Equal(b, a)
  {
    assert !EqualAt(a, b, key) && !EqualAt(b, a, key);
    hide EqualAt;
  }

  // ---- The comparison ---------------------------------------------------------------------

  ghost predicate SameBody(a: Answer, b: Answer) {
    if a.media == "application/json" then
        a.json.Some? && b.json.Some? && Equal(Masked(a.json.value), Masked(b.json.value))
    else a.body == b.body
  }

  predicate SameHeaders(a: Answer, b: Answer) {
    && (forall name :: name in ALWAYS ==> Header(a, name) == Header(b, name))
    && (Header(a, DISPOSITION).Some? || Header(b, DISPOSITION).Some? ==>
          forall name :: name in OF_A_DOWNLOAD ==> Header(a, name) == Header(b, name))
  }

  /** The id sent comes back, as much of it as is kept. */
  predicate Echoes(a: Answer, sent: string) {
    Header(a, REQUEST_ID) == Some(if |sent| <= ECHOED then sent else sent[..ECHOED])
  }

  /** All a caller could tell the two by. */
  ghost predicate SameAnswer(a: Answer, b: Answer, sent: Option<string>) {
    && a.status == b.status
    && a.media == b.media
    && SameHeaders(a, b)
    && (sent.Some? ==> Echoes(a, sent.value) && Echoes(b, sent.value))
    && SameBody(a, b)
  }

  /** A download's headers are compared where either side sends one. */
  method CompareHeaders(a: Answer, b: Answer) returns (out: seq<Finding>)
    ensures out == [] <==> SameHeaders(a, b)
  {
    out := [];
    var download := Header(a, DISPOSITION).Some? || Header(b, DISPOSITION).Some?;
    var names := ALWAYS + if download then OF_A_DOWNLOAD else [];
    for i := 0 to |names|
      invariant out == [] <==> forall j :: 0 <= j < i ==> Header(a, names[j]) == Header(b, names[j])
    {
      if Header(a, names[i]) != Header(b, names[i]) {
        out := out + [OtherHeader(names[i])];
      }
    }
    assert forall name :: name in names <==> name in ALWAYS || (download && name in OF_A_DOWNLOAD);
  }

  /** The two bodies parsed, each side's minted id overwritten, and walked together. */
  method CompareBodies(a: Answer, b: Answer) returns (out: seq<Finding>)
    requires (a.json.Some? ==> Ordinary(a.json.value)) && (b.json.Some? ==> Ordinary(b.json.value))
    ensures out == [] <==> SameBody(a, b)
  {
    out := [];
    if a.media == "application/json" {
      if a.json.None? || b.json.None? { return [Unparseable]; }
      var left, right := Masked(a.json.value), Masked(b.json.value);
      MaskedIsOrdinary(a.json.value);
      MaskedIsOrdinary(b.json.value);
      var report := new Report();
      report.DiffJson(left, right, []);
      NothingReportedExactlyWhenEqual(left, right);
      for i := 0 to |report.out|
        invariant |out| == i
      {
        out := out + [Within(report.out[i])];
      }
    } else if a.body != b.body {
      out := [OtherBody];
    }
  }

  /** Every difference between two answers: none exactly when they are the same. */
  method Compare(django: Answer, nest: Answer, sent: Option<string>) returns (out: seq<Finding>)
    requires (django.json.Some? ==> Ordinary(django.json.value)) && (nest.json.Some? ==> Ordinary(nest.json.value))
    ensures out == [] <==> SameAnswer(django, nest, sent)
  {
    out := [];
    if django.status != nest.status { out := out + [OtherStatus]; }
    if django.media != nest.media { out := out + [OtherType]; }
    var headers := CompareHeaders(django, nest);
    out := out + headers;
    if sent.Some? {
      var echoed := if |sent.value| <= ECHOED then sent.value else sent.value[..ECHOED];
      if Header(django, REQUEST_ID) != Some(echoed) { out := out + [NotEchoed(true)]; }
      if Header(nest, REQUEST_ID) != Some(echoed) { out := out + [NotEchoed(false)]; }
    }
    var bodies := CompareBodies(django, nest);
    out := out + bodies;
  }
}
