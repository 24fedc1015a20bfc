/** How two JSON answers are compared: objects by their keys whatever their order, lists in order,
    numbers by value; every difference listed with its path, and the listing cut short once it is
    long enough. */
module JsonDiff {
  import opened Wrappers

  /** A parsed JSON value; `Native` and `Prototype` are what an object's own prototype answers for. */
  datatype Value =
    | Null | Bool(b: bool) | Num(n: real) | Text(t: string)
    | List(items: seq<Value>) | Object(fields: seq<Field>)
    | Native(name: string) | Prototype

  datatype Field = Field(name: string, value: Value)

  datatype Step = At(index: nat) | Key(name: string)

  type Path = seq<Step>

  datatype Difference =
    | Unequal(path: Path, left: Value, right: Value)
    | Lengths(path: Path, m: nat, n: nat)
    | OnlyRight(path: Path, found: Option<Value>)
    | OnlyLeft(path: Path, left: Value)

  const PROTO := "__proto__"

  /** What every object answers to, its own keys aside. */
  const METHODS: set<string> := {
    "constructor", "__defineGetter__", "__defineSetter__", "hasOwnProperty", "__lookupGetter__", "__lookupSetter__",
    "isPrototypeOf", "propertyIsEnumerable", "toString", "valueOf", "toLocaleString"}

  // ---- Objects ------------------------------------------------------------------------

  function Names(fields: seq<Field>): (names: seq<string>)
    ensures |names| == |fields|
    ensures forall i :: 0 <= i < |fields| ==> names[i] == fields[i].name
  {
    seq(|fields|, i requires 0 <= i < |fields| => fields[i].name)
  }

  /** `Object.keys`: the value's own. */
  function Keys(v: Value): seq<string> {
    if v.Object? then Names(v.fields) else []
  }

  function Find(fields: seq<Field>, key: string): Option<Value> {
    if fields == [] then None
    else if fields[0].name == key then Some(fields[0].value)
    else Find(fields[1..], key)
  }

  function Inherited(key: string): Option<Value> {
    if key == PROTO then Some(Prototype) else if key in METHODS then Some(Native(key)) else None
  }

  /** `v[key]`, if `key in v`. */
  function Get(v: Value, key: string): Option<Value> {
    match v
    case Object(fields) => var own := Find(fields, key); if own.Some? then own else Inherited(key)
    case Prototype => if key == PROTO then Some(Null) else Inherited(key)
    case _ => None
  }

  predicate IsObject(v: Value) {
    v.Object? || v.Prototype?
  }

  function Missing(keys: seq<string>, among: seq<string>): (rest: seq<string>)
    ensures forall k :: k in rest <==> k in keys && k !in among
  {
    if keys == [] then []
    else (if keys[0] in among then [] else [keys[0]]) + Missing(keys[1..], among)
  }

  /** The left's keys, then the right's that the left has not. */
  function Union(left: seq<string>, right: seq<string>): (all: seq<string>)
    ensures forall k :: k in all <==> k in left || k in right
  {
    left + Missing(right, left)
  }

  // ---- Weighed, so that the walk ends -------------------------------------------------

  function Weight(v: Value): (w: nat)
    ensures w >= 1
  {
    match v
    case List(items) => 1 + WeightOfAll(items)
    case Object(fields) => 1 + WeightOfFields(fields)
    case _ => 1
  }

  function WeightOfAll(items: seq<Value>): nat {
    if items == [] then 0 else Weight(items[0]) + WeightOfAll(items[1..])
  }

  function WeightOfFields(fields: seq<Field>): nat {
    if fields == [] then 0 else Weight(fields[0].value) + WeightOfFields(fields[1..])
  }

  lemma {:induction false} ItemIsLighter(items: seq<Value>, i: nat)
    requires i < |items|
    ensures Weight(items[i]) <= WeightOfAll(items)
  {
    if i > 0 {
      ItemIsLighter(items[1..], i - 1);
    }
  }

  lemma {:induction false} FieldIsLighter(fields: seq<Field>, key: string)
    ensures key in Names(fields) <==> Find(fields, key).Some?
    ensures Find(fields, key).Some? ==> Weight(Find(fields, key).value) <= WeightOfFields(fields)
  {
    if fields != [] {
      FieldIsLighter(fields[1..], key);
      assert Names(fields) == [fields[0].name] + Names(fields[1..]);
    }
  }

  lemma GotIsLighter(v: Value, key: string)
    ensures key in Keys(v) ==> Get(v, key).Some? && Weight(Get(v, key).value) < Weight(v)
    ensures Get(v, key).Some? ==> Weight(Get(v, key).value) <= Weight(v)
  {
    if v.Object? {
      FieldIsLighter(v.fields, key);
    }
  }

  /** A key one of them has as its own. */
  predicate Held(a: Value, b: Value, keys: seq<string>) {
    forall i :: 0 <= i < |keys| ==> keys[i] in Keys(a) || keys[i] in Keys(b)
  }

  lemma UnionIsHeld(a: Value, b: Value)
    ensures Held(a, b, Union(Keys(a), Keys(b)))
  {
  }

  function Least(m: nat, n: nat): nat { if m < n then m else n }

  // ---- The whole list of differences --------------------------------------------------

  function Diff(a: Value, b: Value, path: Path): seq<Difference>
    decreases Weight(a) + Weight(b), 1, 0
  {
    if a.Num? && b.Num? then (if a.n != b.n then [Unequal(path, a, b)] else [])
    else if a.List? || b.List? then
      if !a.List? || !b.List? then [Unequal(path, a, b)]
      else
        (if |a.items| != |b.items| then [Lengths(path, |a.items|, |b.items|)] else []) +
        DiffItems(a.items, b.items, 0, path)
    else if IsObject(a) && IsObject(b) then
      UnionIsHeld(a, b);
      DiffKeys(a, b, Union(Keys(a), Keys(b)), path)
    else if a != b then [Unequal(path, a, b)]
    else []
  }

  function DiffItems(a: seq<Value>, b: seq<Value>, i: nat, path: Path): seq<Difference>
    requires i <= Least(|a|, |b|)
    decreases WeightOfAll(a) + WeightOfAll(b) + 1, 0, Least(|a|, |b|) - i
  {
    if i == Least(|a|, |b|) then []
    else
      ItemIsLighter(a, i);
      ItemIsLighter(b, i);
      Diff(a[i], b[i], path + [At(i)]) + DiffItems(a, b, i + 1, path)
  }

  function DiffKeys(a: Value, b: Value, keys: seq<string>, path: Path): seq<Difference>
    requires Held(a, b, keys)
    decreases Weight(a) + Weight(b), 0, |keys|
  {
    if keys == [] then []
    else DiffKey(a, b, keys[0], path) + DiffKeys(a, b, keys[1..], path)
  }

  function DiffKey(a: Value, b: Value, key: string, path: Path): seq<Difference>
    requires key in Keys(a) || key in Keys(b)
    decreases Weight(a) + Weight(b), 0, 0
  {
    GotIsLighter(a, key);
    GotIsLighter(b, key);
    if Get(a, key).None? then [OnlyRight(path + [Key(key)], Get(b, key))]
    else if Get(b, key).None? then [OnlyLeft(path + [Key(key)], Get(a, key).value)]
    else Diff(Get(a, key).value, Get(b, key).value, path + [Key(key)])
  }

  // ---- Cut short ----------------------------------------------------------------------

  const CAP := 50

  /** What the walk leaves in `out`: a call that finds it already past the cap adds nothing, but
      the keys and lengths a call under way has still to report are added all the same. */
  function Capped(a: Value, b: Value, path: Path, out: seq<Difference>): seq<Difference>
    decreases Weight(a) + Weight(b), 1, 0
  {
    if |out| > CAP then out
    else if a.Num? && b.Num? then (if a.n != b.n then out + [Unequal(path, a, b)] else out)
    else if a.List? || b.List? then
      if !a.List? || !b.List? then out + [Unequal(path, a, b)]
      else
        CappedItems(a.items, b.items, 0, path,
                    if |a.items| != |b.items| then out + [Lengths(path, |a.items|, |b.items|)] else out)
    else if IsObject(a) && IsObject(b) then
      UnionIsHeld(a, b);
      CappedKeys(a, b, Union(Keys(a), Keys(b)), path, out)
    else if a != b then out + [Unequal(path, a, b)]
    else out
  }

  function CappedItems(a: seq<Value>, b: seq<Value>, i: nat, path: Path, out: seq<Difference>): seq<Difference>
    requires i <= Least(|a|, |b|)
    decreases WeightOfAll(a) + WeightOfAll(b) + 1, 0, Least(|a|, |b|) - i
  {
    if i == Least(|a|, |b|) then out
    else
      ItemIsLighter(a, i);
      ItemIsLighter(b, i);
      CappedItems(a, b, i + 1, path, Capped(a[i], b[i], path + [At(i)], out))
  }

  function CappedKeys(a: Value, b: Value, keys: seq<string>, path: Path, out: seq<Difference>): seq<Difference>
    requires Held(a, b, keys)
    decreases Weight(a) + Weight(b), 0, |keys|
  {
    if keys == [] then out
    else CappedKeys(a, b, keys[1..], path, CappedKey(a, b, keys[0], path, out))
  }

  function CappedKey(a: Value, b: Value, key: string, path: Path, out: seq<Difference>): seq<Difference>
    requires key in Keys(a) || key in Keys(b)
    decreases Weight(a) + Weight(b), 0, 0
  {
    GotIsLighter(a, key);
    GotIsLighter(b, key);
    if Get(a, key).None? then out + [OnlyRight(path + [Key(key)], Get(b, key))]
    else if Get(b, key).None? then out + [OnlyLeft(path + [Key(key)], Get(a, key).value)]
    else Capped(Get(a, key).value, Get(b, key).value, path + [Key(key)], out)
  }

  // ---- As it is run: one list pushed to by every call ------------------------------------

  class Report {
    var out: seq<Difference>

    constructor ()
      ensures out == []
    {
      out := [];
    }

    method Push(d: Difference)
      modifies this
      ensures out == old(out) + [d]
    {
      out := out + [d];
    }

    method DiffJson(a: Value, b: Value, path: Path)
      modifies this
      ensures out == Capped(a, b, path, old(out))
      decreases Weight(a) + Weight(b), 1
    {
      if |out| > CAP { return; }
      if a.Num? && b.Num? {
        if a.n != b.n { Push(Unequal(path, a, b)); }
        return;
      }
      if a.List? || b.List? {
        if !a.List? || !b.List? {
          Push(Unequal(path, a, b));
          return;
        }
        if |a.items| != |b.items| { Push(Lengths(path, |a.items|, |b.items|)); }
        DiffLists(a, b, path);
        return;
      }
      if IsObject(a) && IsObject(b) {
        DiffObjects(a, b, path);
        return;
      }
      if a != b { Push(Unequal(path, a, b)); }
    }

    /** Item by item, as far as the shorter goes. */
    method DiffLists(a: Value, b: Value, path: Path)
      requires a.List? && b.List?
      modifies this
      ensures out == CappedItems(a.items, b.items, 0, path, old(out))
      decreases Weight(a) + Weight(b), 0
    {
      for i := 0 to Least(|a.items|, |b.items|)
        invariant CappedItems(a.items, b.items, i, path, out) == CappedItems(a.items, b.items, 0, path, old(out))
      {
        ItemIsLighter(a.items, i);
        ItemIsLighter(b.items, i);
        DiffJson(a.items[i], b.items[i], path + [At(i)]);
      }
    }

    /** Key by key, the left's first. */
    method DiffObjects(a: Value, b: Value, path: Path)
      modifies this
      ensures (UnionIsHeld(a, b); out == CappedKeys(a, b, Union(Keys(a), Keys(b)), path, old(out)))
      decreases Weight(a) + Weight(b), 0, 1
    {
      hide Get, Keys, CappedKey;
      var keys := Union(Keys(a), Keys(b));
      UnionIsHeld(a, b);
      for i := 0 to |keys|
        invariant Held(a, b, keys[i..])
        invariant CappedKeys(a, b, keys[i..], path, out) == CappedKeys(a, b, keys, path, old(out))
      {
        assert keys[i..][0] == keys[i] && keys[i..][1..] == keys[i + 1..];
        DiffOneKey(a, b, keys[i], path);
      }
    }

    method DiffOneKey(a: Value, b: Value, key: string, path: Path)
      requires key in Keys(a) || key in Keys(b)
      modifies this
      ensures out == CappedKey(a, b, key, path, old(out))
      decreases Weight(a) + Weight(b), 0, 0
    {
      hide Get, Keys;
      GotIsLighter(a, key);
      GotIsLighter(b, key);
      var left, right := Get(a, key), Get(b, key);
      if left.None? {
        Push(OnlyRight(path + [Key(key)], right));
      } else if right.None? {
        Push(OnlyLeft(path + [Key(key)], left.value));
      } else {
        DiffJson(left.value, right.value, path + [Key(key)]);
      }
    }
  }
}
