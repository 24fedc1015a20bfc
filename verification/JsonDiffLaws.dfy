/** What the comparison promises: no difference listed exactly when the two are equal, each path
    leading to what differs there, and a listing cut short that never hides a difference. */
module JsonDiffLaws {
  import opened Wrappers
  import opened JsonDiff

  // ---- The cap refines the whole list -----------------------------------------------------

  ghost predicate Subsequence(s: seq<Difference>, d: seq<Difference>) {
    s == [] || (d != [] && (Subsequence(s, d[1..]) || (s[0] == d[0] && Subsequence(s[1..], d[1..]))))
  }

  const KEPT := CAP + 1

  function First(s: seq<Difference>): seq<Difference> {
    if |s| <= KEPT then s else s[..KEPT]
  }

  /** `r` is `out` with some of `d` added, and as far as the cap with all of it. */
  ghost predicate Faithful(out: seq<Difference>, r: seq<Difference>, d: seq<Difference>) {
    |out| <= |r| && r[..|out|] == out && Subsequence(r[|out|..], d) && First(r) == First(out + d)
  }

  lemma {:induction false} SubsequenceOnly(s: seq<Difference>, c: seq<Difference>, d: seq<Difference>)
    requires Subsequence(s, d)
    ensures Subsequence(s, c + d)
  {
    if c == [] {
      assert c + d == d;
    } else {
      SubsequenceOnly(s, c[1..], d);
      assert (c + d)[1..] == c[1..] + d;
    }
  }

  lemma {:induction false} SubsequencesJoin(s: seq<Difference>, c: seq<Difference>, t: seq<Difference>,
      d: seq<Difference>)
    requires Subsequence(s, c) && Subsequence(t, d)
    ensures Subsequence(s + t, c + d)
  {
    if s == [] {
      assert s + t == t;
      SubsequenceOnly(t, c, d);
    } else {
      assert (c + d)[1..] == c[1..] + d;
      if Subsequence(s, c[1..]) {
        SubsequencesJoin(s, c[1..], t, d);
      } else {
        SubsequencesJoin(s[1..], c[1..], t, d);
        assert (s + t)[1..] == s[1..] + t;
      }
    }
  }

  lemma FaithfulPush(out: seq<Difference>, e: Difference)
    ensures Faithful(out, out + [e], [e])
  {
    assert (out + [e])[|out|..] == [e];
  }

  lemma FaithfulKeep(out: seq<Difference>, d: seq<Difference>)
    requires d == [] || |out| > CAP
    ensures Faithful(out, out, d)
  {
    assert out + [] == out;
  }

  lemma FaithfulThen(out: seq<Difference>, r: seq<Difference>, c: seq<Difference>, q: seq<Difference>,
      d: seq<Difference>)
    requires Faithful(out, r, c) && Faithful(r, q, d)
    ensures Faithful(out, q, c + d)
  {
    assert q[|out|..] == r[|out|..] + q[|r|..];
    SubsequencesJoin(r[|out|..], c, q[|r|..], d);
    assert out + (c + d) == (out + c) + d;
    if |r| < KEPT {
      assert r == out + c;
    } else {
      assert First(r + d) == r[..KEPT] == First(out + c);
      assert First((out + c) + d) == (out + c)[..KEPT];
    }
  }

  /** The list cut short is the whole list with some entries left out, none of its first 51. */
  lemma {:induction false} CapRefines(a: Value, b: Value, path: Path, out: seq<Difference>)
    ensures Faithful(out, Capped(a, b, path, out), Diff(a, b, path))
    decreases Weight(a) + Weight(b), 1, 0
  {
    hide Faithful;
    if |out| > CAP {
      FaithfulKeep(out, Diff(a, b, path));
    } else if a.List? && b.List? {
      var entry := Lengths(path, |a.items|, |b.items|);
      var start := if |a.items| != |b.items| then out + [entry] else out;
      FaithfulPush(out, entry);
      FaithfulKeep(out, []);
      CapRefinesItems(a.items, b.items, 0, path, start);
      FaithfulThen(out, start, if |a.items| != |b.items| then [entry] else [],
                   CappedItems(a.items, b.items, 0, path, start), DiffItems(a.items, b.items, 0, path));
    } else if !a.List? && !b.List? && IsObject(a) && IsObject(b) {
      UnionIsHeld(a, b);
      CapRefinesKeys(a, b, Union(Keys(a), Keys(b)), path, out);
    } else {
      FaithfulPush(out, Unequal(path, a, b));
      FaithfulKeep(out, []);
    }
  }

  lemma {:induction false} CapRefinesItems(a: seq<Value>, b: seq<Value>, i: nat, path: Path, out: seq<Difference>)
    requires i <= Least(|a|, |b|)
    ensures Faithful(out, CappedItems(a, b, i, path, out), DiffItems(a, b, i, path))
    decreases WeightOfAll(a) + WeightOfAll(b) + 1, 0, Least(|a|, |b|) - i
  {
    hide Faithful;
    if i == Least(|a|, |b|) {
      FaithfulKeep(out, []);
    } else {
      ItemIsLighter(a, i);
      ItemIsLighter(b, i);
      var next := Capped(a[i], b[i], path + [At(i)], out);
      CapRefines(a[i], b[i], path + [At(i)], out);
      CapRefinesItems(a, b, i + 1, path, next);
      FaithfulThen(out, next, Diff(a[i], b[i], path + [At(i)]), CappedItems(a, b, i + 1, path, next),
          DiffItems(a, b, i + 1, path));
    }
  }

  lemma {:induction false} CapRefinesKeys(a: Value, b: Value, keys: seq<string>, path: Path, out: seq<Difference>)
    requires Held(a, b, keys)
    ensures Faithful(out, CappedKeys(a, b, keys, path, out), DiffKeys(a, b, keys, path))
    decreases Weight(a) + Weight(b), 0, |keys|
  {
    hide Faithful;
    if keys == [] {
      FaithfulKeep(out, []);
    } else {
      var key := keys[0];
      GotIsLighter(a, key);
      GotIsLighter(b, key);
      var next := CappedKey(a, b, key, path, out);
      if Get(a, key).Some? && Get(b, key).Some? {
        CapRefines(Get(a, key).value, Get(b, key).value, path + [Key(key)], out);
      } else {
        FaithfulPush(out, OnlyRight(path + [Key(key)], Get(b, key)));
        if Get(a, key).Some? {
          FaithfulPush(out, OnlyLeft(path + [Key(key)], Get(a, key).value));
        }
      }
      CapRefinesKeys(a, b, keys[1..], path, next);
      FaithfulThen(out, next, DiffKey(a, b, key, path), CappedKeys(a, b, keys[1..], path, next),
          DiffKeys(a, b, keys[1..], path));
    }
  }

  /** From an empty list: nothing is reported exactly when there is nothing to report, and what is
      reported begins as the whole list does. */
  lemma CapHidesNothing(a: Value, b: Value, path: Path)
    ensures Subsequence(Capped(a, b, path, []), Diff(a, b, path))
    ensures First(Capped(a, b, path, [])) == First(Diff(a, b, path))
    ensures Capped(a, b, path, []) == [] <==> Diff(a, b, path) == []
  {
    CapRefines(a, b, path, []);
    assert [] + Diff(a, b, path) == Diff(a, b, path);
    assert Capped(a, b, path, [])[0..] == Capped(a, b, path, []);
  }

  // ---- Which entries are listed -----------------------------------------------------------

  lemma {:induction false} InItems(a: seq<Value>, b: seq<Value>, i: nat, path: Path, e: Difference)
    requires i <= Least(|a|, |b|)
    ensures e in DiffItems(a, b, i, path) <==>
            exists j :: i <= j < Least(|a|, |b|) && e in Diff(a[j], b[j], path + [At(j)])
    decreases Least(|a|, |b|) - i
  {
    hide Diff;
    if i < Least(|a|, |b|) {
      InItems(a, b, i + 1, path, e);
    }
  }

  lemma {:induction false} InKeys(a: Value, b: Value, keys: seq<string>, path: Path, e: Difference)
    requires Held(a, b, keys)
    ensures e in DiffKeys(a, b, keys, path) <==> exists i :: 0 <= i < |keys| && e in DiffKey(a, b, keys[i], path)
    decreases |keys|
  {
    if keys != [] {
      var rest := keys[1..];
      InKeys(a, b, rest, path, e);
      if i :| 0 <= i < |rest| && e in DiffKey(a, b, rest[i], path) {
        assert keys[i + 1] == rest[i];
      }
      if e !in DiffKey(a, b, keys[0], path) {
        if i :| 0 <= i < |keys| && e in DiffKey(a, b, keys[i], path) {
          assert rest[i - 1] == keys[i];
        }
      }
    }
  }

  lemma InObjects(a: Value, b: Value, path: Path, e: Difference)
    requires IsObject(a) && IsObject(b)
    ensures e in Diff(a, b, path) <==> exists k :: (k in Keys(a) || k in Keys(b)) && e in DiffKey(a, b, k, path)
  {
    var keys := Union(Keys(a), Keys(b));
    UnionIsHeld(a, b);
    InKeys(a, b, keys, path, e);
    if k :| (k in Keys(a) || k in Keys(b)) && e in DiffKey(a, b, k, path) {
      assert k in keys;
    }
  }

  /** Every entry's path goes on from where the walk is. */
  lemma {:induction false} PathsGoOn(a: Value, b: Value, path: Path, e: Difference)
    requires e in Diff(a, b, path)
    ensures path <= e.path
    decreases Weight(a) + Weight(b), 1
  {
    if a.List? && b.List? {
      if e != Lengths(path, |a.items|, |b.items|) {
        InItems(a.items, b.items, 0, path, e);
        var j :| 0 <= j < Least(|a.items|, |b.items|) && e in Diff(a.items[j], b.items[j], path + [At(j)]);
        PathsInItem(a, b, j, path, e);
      }
    } else if !a.List? && !b.List? && IsObject(a) && IsObject(b) {
      InObjects(a, b, path, e);
      var k :| (k in Keys(a) || k in Keys(b)) && e in DiffKey(a, b, k, path);
      PathsInKey(a, b, k, path, e);
    }
  }

  lemma {:induction false} PathsInItem(a: Value, b: Value, j: nat, path: Path, e: Difference)
    requires a.List? && b.List? && j < |a.items| && j < |b.items| && e in Diff(a.items[j], b.items[j], path + [At(j)])
    ensures path <= e.path
    decreases Weight(a) + Weight(b), 0
  {
    hide Diff;
    ItemIsLighter(a.items, j);
    ItemIsLighter(b.items, j);
    PathsGoOn(a.items[j], b.items[j], path + [At(j)], e);
    assert path <= path + [At(j)];
  }

  lemma {:induction false} PathsInKey(a: Value, b: Value, key: string, path: Path, e: Difference)
    requires (key in Keys(a) || key in Keys(b)) && e in DiffKey(a, b, key, path)
    ensures path + [Key(key)] <= e.path && path <= e.path
    decreases Weight(a) + Weight(b), 0
  {
    hide Diff, Get, Keys;
    GotIsLighter(a, key);
    GotIsLighter(b, key);
    if Get(a, key).Some? && Get(b, key).Some? {
      PathsGoOn(Get(a, key).value, Get(b, key).value, path + [Key(key)], e);
    }
    assert path <= path + [Key(key)];
  }

  /** Two values that differ where they stand, whatever is inside them. */
  predicate Clash(x: Value, y: Value) {
    if x.Num? && y.Num? then x.n != y.n
    else if x.List? || y.List? then !x.List? || !y.List?
    else !(IsObject(x) && IsObject(y)) && x != y
  }

  /** What the steps lead to on both sides, if they lead anywhere on both. */
  function Reach(a: Value, b: Value, steps: Path): Option<(Value, Value)>
    decreases |steps|
  {
    if steps == [] then Some((a, b))
    else
      match steps[0]
      case At(i) =>
        if a.List? && b.List? && i < Least(|a.items|, |b.items|) then Reach(a.items[i], b.items[i], steps[1..])
            else None
      case Key(key) =>
        if IsObject(a) && IsObject(b) && (key in Keys(a) || key in Keys(b)) && Get(a, key).Some? && Get(b, key).Some?
        then Reach(Get(a, key).value, Get(b, key).value, steps[1..])
        else None
  }

  /** An entry of two values is listed exactly where its path leads to those two values on the two
      sides, and they clash. */
  lemma {:induction false} ListedExactlyWhen(a: Value, b: Value, path: Path, steps: Path, x: Value, y: Value)
    ensures Unequal(path + steps, x, y) in Diff(a, b, path) <==> Reach(a, b, steps) == Some((x, y)) && Clash(x, y)
    decreases Weight(a) + Weight(b)
  {
    var e := Unequal(path + steps, x, y);
    if a.List? && b.List? {
      ListedInItems(a, b, path, steps, x, y);
    } else if !a.List? && !b.List? && IsObject(a) && IsObject(b) {
      ListedInKeys(a, b, path, steps, x, y);
    } else {
      assert path + steps == path <==> steps == [];
    }
  }

  lemma StepNames(path: Path, steps: Path, step: Step)
    requires path + [step] <= path + steps
    ensures steps != [] && steps[0] == step && path + steps == path + [step] + steps[1..]
  {
    assert (path + steps)[|path|] == (path + [step])[|path|];
  }

  lemma {:induction false} ListedInItems(a: Value, b: Value, path: Path, steps: Path, x: Value, y: Value)
    requires a.List? && b.List?
    ensures Unequal(path + steps, x, y) in Diff(a, b, path) <==> Reach(a, b, steps) == Some((x, y)) && Clash(x, y)
    decreases Weight(a) + Weight(b), 0
  {
    var e, n := Unequal(path + steps, x, y), Least(|a.items|, |b.items|);
    InItems(a.items, b.items, 0, path, e);
    if j :| 0 <= j < n && e in Diff(a.items[j], b.items[j], path + [At(j)]) {
      PathsGoOn(a.items[j], b.items[j], path + [At(j)], e);
      StepNames(path, steps, At(j));
    }
    if steps != [] && steps[0].At? && steps[0].index < n {
      var j := steps[0].index;
      ItemIsLighter(a.items, j);
      ItemIsLighter(b.items, j);
      assert path + steps == path + [At(j)] + steps[1..];
      ListedExactlyWhen(a.items[j], b.items[j], path + [At(j)], steps[1..], x, y);
    }
  }

  lemma ReachNone(a: Value, b: Value, steps: Path)
    requires IsObject(a) && IsObject(b)
    ensures steps == [] || steps[0].At? || !(steps[0].name in Keys(a) || steps[0].name in Keys(b)) ==>
              Reach(a, b, steps) == None || Reach(a, b, steps) == Some((a, b))
  {
  }

  lemma {:induction false} ListedInKeys(a: Value, b: Value, path: Path, steps: Path, x: Value, y: Value)
    requires IsObject(a) && IsObject(b)
    ensures Unequal(path + steps, x, y) in Diff(a, b, path) <==> Reach(a, b, steps) == Some((x, y)) && Clash(x, y)
    decreases Weight(a) + Weight(b), 1
  {
    hide Diff, DiffKey, Get, Keys, Reach, METHODS;
    var e := Unequal(path + steps, x, y);
    InObjects(a, b, path, e);
    if k :| (k in Keys(a) || k in Keys(b)) && e in DiffKey(a, b, k, path) {
      ListedFrom(a, b, k, path, steps, x, y);
    }
    if steps != [] && steps[0].Key? && (steps[0].name in Keys(a) || steps[0].name in Keys(b)) {
      ListedUnder(a, b, steps[0].name, path, steps, x, y);
    } else {
      ReachNone(a, b, steps);
    }
  }

  lemma {:induction false} ListedFrom(a: Value, b: Value, key: string, path: Path, steps: Path, x: Value, y: Value)
    requires IsObject(a) && IsObject(b) && (key in Keys(a) || key in Keys(b))
    requires Unequal(path + steps, x, y) in DiffKey(a, b, key, path)
    ensures steps != [] && steps[0] == Key(key)
  {
    hide Diff, Keys, Get;
    PathsInKey(a, b, key, path, Unequal(path + steps, x, y));
    StepNames(path, steps, Key(key));
  }

  lemma {:induction false} ListedUnder(a: Value, b: Value, key: string, path: Path, steps: Path, x: Value, y: Value)
    requires IsObject(a) && IsObject(b) && (key in Keys(a) || key in Keys(b)) && steps != [] && steps[0] == Key(key)
    ensures Unequal(path + steps, x, y) in DiffKey(a, b, key, path) <==>
        Reach(a, b, steps) == Some((x, y)) && Clash(x, y)
    decreases Weight(a) + Weight(b), 0
  {
    hide Diff, Keys, Get;
    GotIsLighter(a, key);
    GotIsLighter(b, key);
    if Get(a, key).Some? && Get(b, key).Some? {
      assert path + steps == path + [Key(key)] + steps[1..];
      ListedExactlyWhen(Get(a, key).value, Get(b, key).value, path + [Key(key)], steps[1..], x, y);
    }
  }

  // ---- Nothing listed exactly when equal --------------------------------------------------

  /** Nothing but what a JSON text can say. */
  predicate Plain(v: Value) {
    match v
    case List(items) => forall i :: 0 <= i < |items| ==> Plain(items[i])
    case Object(fields) => forall i :: 0 <= i < |fields| ==> Plain(fields[i].value)
    case Native(_) => false
    case Prototype => false
    case _ => true
  }

  lemma {:induction false} PlainField(fields: seq<Field>, key: string)
    requires forall i :: 0 <= i < |fields| ==> Plain(fields[i].value)
    ensures Find(fields, key).Some? ==> Plain(Find(fields, key).value)
  {
    if fields != [] {
      PlainField(fields[1..], key);
    }
  }

  lemma PlainKey(v: Value, key: string)
    requires Plain(v) && key in Keys(v)
    ensures Get(v, key).Some? && Plain(Get(v, key).value)
  {
    GotIsLighter(v, key);
    FieldIsLighter(v.fields, key);
    PlainField(v.fields, key);
  }

  /** Equal by value, lists in order and objects by their keys. */
  ghost predicate Equal(a: Value, b: Value)
    decreases Weight(a) + Weight(b), 1
  {
    if a.List? && b.List? then
      |a.items| == |b.items| &&
      forall i | 0 <= i < |a.items| ::
          (ItemIsLighter(a.items, i); ItemIsLighter(b.items, i); Equal(a.items[i], b.items[i]))
    else if a.Object? && b.Object? then
      (forall k :: k in Keys(a) <==> k in Keys(b)) && forall k | k in Keys(a) && k in Keys(b) :: EqualAt(a, b, k)
    else a == b
  }

  ghost predicate EqualAt(a: Value, b: Value, key: string)
    requires key in Keys(a) && key in Keys(b)
    decreases Weight(a) + Weight(b), 0
  {
    GotIsLighter(a, key);
    GotIsLighter(b, key);
    Equal(Get(a, key).value, Get(b, key).value)
  }

  /** What stands under `__proto__` and is taken for the prototype itself. */
  predicate Hollow(v: Value) {
    && v.Object?
    && (forall k :: k in Keys(v) ==> k == PROTO)
    && (PROTO in Keys(v) ==> Get(v, PROTO) == Some(Null))
  }

  /** Equal, but that a hollow `__proto__` on one side is not seen. */
  ghost predicate Alike(a: Value, b: Value)
    decreases Weight(a) + Weight(b), 1
  {
    if a.List? && b.List? then
      |a.items| == |b.items| &&
      forall i | 0 <= i < |a.items| ::
          (ItemIsLighter(a.items, i); ItemIsLighter(b.items, i); Alike(a.items[i], b.items[i]))
    else if a.Object? && b.Object? then forall k | k in Keys(a) || k in Keys(b) :: AlikeAt(a, b, k)
    else a == b
  }

  ghost predicate AlikeAt(a: Value, b: Value, key: string)
    requires key in Keys(a) || key in Keys(b)
    decreases Weight(a) + Weight(b), 0
  {
    GotIsLighter(a, key);
    GotIsLighter(b, key);
    if key !in Keys(a) then key == PROTO && Hollow(Get(b, key).value)
    else if key !in Keys(b) then key == PROTO && Hollow(Get(a, key).value)
    else Alike(Get(a, key).value, Get(b, key).value)
  }

  lemma {:induction false} NoItems(a: seq<Value>, b: seq<Value>, i: nat, path: Path)
    requires i <= Least(|a|, |b|)
    ensures DiffItems(a, b, i, path) == [] <==> forall j :: i <= j < Least(|a|, |b|) ==>
        Diff(a[j], b[j], path + [At(j)]) == []
    decreases Least(|a|, |b|) - i
  {
    if i < Least(|a|, |b|) {
      NoItems(a, b, i + 1, path);
    }
  }

  lemma {:induction false} NoKeys(a: Value, b: Value, keys: seq<string>, path: Path)
    requires Held(a, b, keys)
    ensures DiffKeys(a, b, keys, path) == [] <==> forall i :: 0 <= i < |keys| ==> DiffKey(a, b, keys[i], path) == []
    decreases |keys|
  {
    if keys != [] {
      var rest := keys[1..];
      NoKeys(a, b, rest, path);
      assert forall i :: 0 < i < |keys| ==> keys[i] == rest[i - 1];
      assert forall i :: 0 <= i < |rest| ==> rest[i] == keys[i + 1];
    }
  }

  /** The prototype answers to no value but a hollow one. */
  lemma HollowExactlyWhen(v: Value, path: Path)
    requires Plain(v)
    ensures Diff(Prototype, v, path) == [] <==> Hollow(v)
    ensures Diff(v, Prototype, path) == [] <==> Hollow(v)
  {
    if v.Object? {
      HollowKeys(v, path);
    }
  }

  lemma HollowKey(v: Value, key: string, path: Path)
    requires Plain(v) && v.Object? && key in Keys(v)
    ensures DiffKey(Prototype, v, key, path) == [] <==> key == PROTO && Get(v, PROTO) == Some(Null)
    ensures DiffKey(v, Prototype, key, path) == [] <==> key == PROTO && Get(v, PROTO) == Some(Null)
  {
    PlainKey(v, key);
  }

  lemma NoneOfKeys(a: Value, b: Value, path: Path)
    requires IsObject(a) && IsObject(b)
    ensures Diff(a, b, path) == [] <==> forall k | k in Keys(a) || k in Keys(b) :: DiffKey(a, b, k, path) == []
  {
    hide DiffKey, DiffKeys, Keys, Get;
    var keys := Union(Keys(a), Keys(b));
    UnionIsHeld(a, b);
    NoKeys(a, b, keys, path);
    forall k | k in Keys(a) || k in Keys(b) ensures exists i :: 0 <= i < |keys| && keys[i] == k {
    }
  }

  lemma HollowKeys(v: Value, path: Path)
    requires Plain(v) && v.Object?
    ensures Diff(Prototype, v, path) == [] <==> Hollow(v)
    ensures Diff(v, Prototype, path) == [] <==> Hollow(v)
  {
    hide Diff, DiffKey, Get;
    NoneOfKeys(Prototype, v, path);
    NoneOfKeys(v, Prototype, path);
    forall k | k in Keys(v)
      ensures DiffKey(Prototype, v, k, path) == [] <==> k == PROTO && Get(v, PROTO) == Some(Null)
      ensures DiffKey(v, Prototype, k, path) == [] <==> k == PROTO && Get(v, PROTO) == Some(Null)
    {
      HollowKey(v, k, path);
    }
  }

  /** Nothing is listed exactly when the two are alike. */
  lemma {:induction false} NothingListedExactlyWhen(a: Value, b: Value, path: Path)
    requires Plain(a) && Plain(b)
    ensures Diff(a, b, path) == [] <==> Alike(a, b)
    decreases Weight(a) + Weight(b), 1
  {
    if a.List? && b.List? {
      NoItems(a.items, b.items, 0, path);
      forall j | 0 <= j < Least(|a.items|, |b.items|)
        ensures Diff(a.items[j], b.items[j], path + [At(j)]) == [] <==> Alike(a.items[j], b.items[j])
      {
        ItemIsLighter(a.items, j);
        ItemIsLighter(b.items, j);
        NothingListedExactlyWhen(a.items[j], b.items[j], path + [At(j)]);
      }
    } else if a.Object? && b.Object? {
      NoneOfKeys(a, b, path);
      forall k | k in Keys(a) || k in Keys(b) ensures DiffKey(a, b, k, path) == [] <==> AlikeAt(a, b, k) {
        NothingListedAt(a, b, k, path);
      }
    }
  }

  lemma {:induction false} NothingListedAt(a: Value, b: Value, key: string, path: Path)
    requires Plain(a) && Plain(b) && a.Object? && b.Object? && (key in Keys(a) || key in Keys(b))
    ensures DiffKey(a, b, key, path) == [] <==> AlikeAt(a, b, key)
    decreases Weight(a) + Weight(b), 0
  {
    GotIsLighter(a, key);
    GotIsLighter(b, key);
    if key in Keys(a) && key in Keys(b) {
      PlainKey(a, key);
      PlainKey(b, key);
      NothingListedExactlyWhen(Get(a, key).value, Get(b, key).value, path + [Key(key)]);
    } else if key in Keys(a) {
      PlainKey(a, key);
      NotOwn(b, key);
      HollowExactlyWhen(Get(a, key).value, path + [Key(key)]);
    } else {
      PlainKey(b, key);
      NotOwn(a, key);
      HollowExactlyWhen(Get(b, key).value, path + [Key(key)]);
    }
  }

  lemma NotOwn(v: Value, key: string)
    requires v.Object? && key !in Keys(v)
    ensures Get(v, key) == Inherited(key)
  {
    FieldIsLighter(v.fields, key);
  }

  /** No object in it has a key `__proto__`. */
  predicate WithoutProto(v: Value) {
    match v
    case List(items) => forall i :: 0 <= i < |items| ==> WithoutProto(items[i])
    case Object(fields) => forall i :: 0 <= i < |fields| ==> fields[i].name != PROTO && WithoutProto(fields[i].value)
    case _ => true
  }

  lemma {:induction false} FieldWithoutProto(fields: seq<Field>, key: string)
    requires forall i :: 0 <= i < |fields| ==> fields[i].name != PROTO && WithoutProto(fields[i].value)
    ensures Find(fields, key).Some? ==> WithoutProto(Find(fields, key).value) && key != PROTO
  {
    if fields != [] {
      FieldWithoutProto(fields[1..], key);
    }
  }

  lemma {:induction false} AlikeIsEqual(a: Value, b: Value)
    requires WithoutProto(a) && WithoutProto(b)
    ensures Alike(a, b) <==> Equal(a, b)
    decreases Weight(a) + Weight(b)
  {
    if a.List? && b.List? && |a.items| == |b.items| {
      forall i | 0 <= i < |a.items| ensures Alike(a.items[i], b.items[i]) <==> Equal(a.items[i], b.items[i]) {
        ItemIsLighter(a.items, i);
        ItemIsLighter(b.items, i);
        AlikeIsEqual(a.items[i], b.items[i]);
      }
    } else if a.Object? && b.Object? {
      forall k | k in Keys(a) || k in Keys(b)
        ensures AlikeAt(a, b, k) <==> k in Keys(a) && k in Keys(b) && EqualAt(a, b, k)
      {
        FieldIsLighter(a.fields, k);
        FieldIsLighter(b.fields, k);
        FieldWithoutProto(a.fields, k);
        FieldWithoutProto(b.fields, k);
        if k in Keys(a) && k in Keys(b) {
          GotIsLighter(a, k);
          GotIsLighter(b, k);
          AlikeIsEqual(Get(a, k).value, Get(b, k).value);
        }
      }
    }
  }

  /** What is reported, cut short or not: nothing, exactly when the two are equal. */
  lemma NothingReportedExactlyWhenEqual(a: Value, b: Value)
    requires Plain(a) && Plain(b) && WithoutProto(a) && WithoutProto(b)
    ensures Capped(a, b, [], []) == [] <==> Equal(a, b)
  {
    CapHidesNothing(a, b, []);
    NothingListedExactlyWhen(a, b, []);
    AlikeIsEqual(a, b);
  }

  /** With such a key it may report nothing of two that differ. */
  lemma AProtoKeyIsNotSeen()
    ensures var a, b := Object([]), Object([Field(PROTO, Object([]))]);
      Plain(a) && Plain(b) && !Equal(a, b) && Capped(a, b, [], []) == []
  {
    var a, b := Object([]), Object([Field(PROTO, Object([]))]);
    CapHidesNothing(a, b, []);
    NothingListedExactlyWhen(a, b, []);
    assert Names(b.fields)[0] == PROTO;
    assert Plain(b.fields[0].value);
    assert PROTO in Keys(b) && PROTO !in Keys(a);
    assert AlikeAt(a, b, PROTO) by {
      assert Get(b, PROTO) == Some(Object([]));
    }
    assert forall k :: k in Keys(b) ==> k == PROTO;
  }

  /** Every path reported leads to values that are not equal. */
  lemma ReportedPathsDiffer(a: Value, b: Value, e: Difference)
    requires e in Capped(a, b, [], []) && e.Unequal? && Plain(a) && Plain(b)
    ensures Reach(a, b, e.path) == Some((e.left, e.right)) && !Equal(e.left, e.right)
  {
    CapHidesNothing(a, b, []);
    AmongThem(Capped(a, b, [], []), Diff(a, b, []), e);
    assert [] + e.path == e.path;
    ListedExactlyWhen(a, b, [], e.path, e.left, e.right);
  }

  lemma {:induction false} AmongThem(s: seq<Difference>, d: seq<Difference>, e: Difference)
    requires Subsequence(s, d) && e in s
    ensures e in d
  {
    if Subsequence(s, d[1..]) {
      AmongThem(s, d[1..], e);
    } else if s[0] != e {
      AmongThem(s[1..], d[1..], e);
    }
  }
}
