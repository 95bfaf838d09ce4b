/**
 * Laws of setting defaults: what one default keeps, when two commute, and what a list of them
 * yields in another order or a second time.
 */
module Defaults {
  import opened Wrappers
  import opened PathUtil

  datatype Default = Default(path: Path, value: Json)

  function Apply(m: Object, d: Default): Object {
    SetIfAbsent(m, d.path, d.value)
  }

  function ApplyAll(m: Object, ds: seq<Default>): Object
    decreases ds
  {
    if ds == [] then m else ApplyAll(Apply(m, ds[0]), ds[1..])
  }

  lemma SetIsNonEmpty(m: Object, path: Path, value: Json)
    requires path != []
    ensures SetIfAbsent(m, path, value) != map[]
  {
    var m' := SetIfAbsent(m, path, value);
    assert path[0] in m';
  }

  /** A default with a value that counts as present makes its path present. */
  lemma {:induction false} SetMakesPresent(m: Object, path: Path, value: Json)
    requires path != [] && NonEmpty(value)
    ensures IsPresent(SetIfAbsent(m, path, value), path)
    decreases path
  {
    if |path| == 1 {
    } else {
      SetMakesPresent(Child(m, path[0]), path[1..], value);
    }
  }

  /** Setting a default changes nothing exactly if its path is empty or present, or has the very value. */
  lemma {:induction false} SetChangesNothingExactly(m: Object, path: Path, value: Json)
    ensures SetIfAbsent(m, path, value) == m
       <==> path == [] || IsPresent(m, path) || Lookup(m, path) == Some(value)
    decreases path
  {
    if |path| <= 1 {
      assert path == [] || IsPresent(m, path) || SetIfAbsent(m, path, value)[path[0]] == value;
    } else {
      var child := Child(m, path[0]);
      SetChangesNothingExactly(child, path[1..], value);
      if path[0] in m && m[path[0]].Obj? {
        assert SetIfAbsent(child, path[1..], value) == child ==> m == m[path[0] := Obj(child)];
        assert SetIfAbsent(m, path, value)[path[0]] == Obj(SetIfAbsent(child, path[1..], value));
      } else {
        assert SetIfAbsent(m, path, value)[path[0]].Obj?;
      }
    }
  }

  /** A present intermediate value that is no object never stops a default: an object replaces it. */
  lemma {:induction false} ScalarIsReplaced(m: Object, path: Path, i: nat, value: Json)
    requires 0 < i < |path| && Lookup(m, path[..i]).Some? && !Lookup(m, path[..i]).value.Obj?
    ensures var m' := SetIfAbsent(m, path, value);
      m' != m && Lookup(m', path[..i]).Some? && Lookup(m', path[..i]).value.Obj?
    decreases path
  {
    if i == 1 {
      assert path[..i] == [path[0]];
    } else {
      assert path[..i][1..] == path[1..][..i - 1];
      ScalarIsReplaced(m[path[0]].fields, path[1..], i - 1, value);
    }
  }

  /** Whatever was present stays present, even under a path that replaces an intermediate value. */
  lemma {:induction false} SetKeepsPresence(m: Object, path: Path, value: Json, q: Path)
    requires IsPresent(m, q)
    ensures IsPresent(SetIfAbsent(m, path, value), q)
    decreases path
  {
    if path != [] && q[0] == path[0] {
      if |path| == 1 {
        if |q| > 1 {
          assert Lookup(m[q[0]].fields, q[1..]).Some?;
          assert m[q[0]].fields != map[];
        }
      } else if |q| == 1 {
        SetIsNonEmpty(Child(m, path[0]), path[1..], value);
      } else {
        SetKeepsPresence(m[q[0]].fields, path[1..], value, q[1..]);
      }
    }
  }

  /** Neither path is a prefix of the other. */
  predicate Diverge(p: Path, q: Path) {
    !(p <= q) && !(q <= p)
  }

  lemma DivergeTails(p: Path, q: Path)
    requires Diverge(p, q) && p[0] == q[0]
    ensures |p| > 1 && |q| > 1 && Diverge(p[1..], q[1..])
  {
    assert p == [p[0]] + p[1..];
    assert q == [q[0]] + q[1..];
  }

  /** A default does not change what is found along a path that diverges from its own. */
  lemma {:induction false} SetKeepsDivergent(m: Object, p: Path, value: Json, q: Path)
    requires Diverge(p, q)
    ensures Lookup(SetIfAbsent(m, p, value), q) == Lookup(m, q)
    decreases p
  {
    if p[0] == q[0] {
      DivergeTails(p, q);
      SetKeepsDivergent(Child(m, p[0]), p[1..], value, q[1..]);
    }
  }

  /** Setting a default below the value `v` leaves nothing of `v`. */
  predicate WritesInto(v: Json, rest: Path, value: Json) {
    v.Obj? ==> SetIfAbsent(v.fields, rest, value) == SetIfAbsent(map[], rest, value)
  }

  /**
   * When two defaults can be set in either order. They can unless they meet: at one path with
   * different values of which both or neither count as present, or where the value of one is an
   * object that the other would write into.
   */
  predicate Compatible(d: Default, e: Default)
    decreases d.path
  {
    var p, q := d.path, e.path;
    if p == [] || q == [] || p[0] != q[0] then true
    else if |p| == 1 && |q| == 1 then d.value == e.value || NonEmpty(d.value) != NonEmpty(e.value)
    else if |p| == 1 then WritesInto(d.value, q[1..], e.value)
    else if |q| == 1 then WritesInto(e.value, p[1..], d.value)
    else Compatible(Default(p[1..], d.value), Default(q[1..], e.value))
  }

  lemma ShorterFirst(m: Object, d: Default, e: Default)
    requires |d.path| == 1 && |e.path| > 1 && d.path[0] == e.path[0]
    requires WritesInto(d.value, e.path[1..], e.value)
    ensures Apply(Apply(m, d), e) == Apply(Apply(m, e), d)
  {
    var a, rest := d.path[0], e.path[1..];
    SetIsNonEmpty(Child(m, a), rest, e.value);
    assert IsPresent(Apply(m, e), d.path);
    assert Apply(Apply(m, e), d) == Apply(m, e);
    if !IsPresent(m, d.path) {
      assert Child(m, a) == map[];
      assert Apply(m, d) == m[a := d.value];
      assert Apply(Apply(m, d), e) == m[a := d.value][a := Obj(SetIfAbsent(Child(m[a := d.value], a), rest, e.value))];
    }
  }

  /** Setting a default only looks at, and only writes, the first key of its path. */
  lemma OnlyFirstKey(m: Object, d: Default, key: string, v: Json)
    requires d.path != [] && d.path[0] != key
    ensures Apply(m[key := v], d) == Apply(m, d)[key := v]
  {
    assert Child(m[key := v], d.path[0]) == Child(m, d.path[0]);
    assert Lookup(m[key := v], d.path) == Lookup(m, d.path);
    if |d.path| == 1 {
      assert m[key := v][d.path[0] := d.value] == m[d.path[0] := d.value][key := v];
    } else {
      var o := Obj(SetIfAbsent(Child(m, d.path[0]), d.path[1..], d.value));
      assert m[key := v][d.path[0] := o] == m[d.path[0] := o][key := v];
    }
  }

  /** The one assignment a default makes. */
  lemma OneAssignment(m: Object, d: Default)
    requires d.path != []
    ensures Apply(m, d) == m || (d.path[0] in Apply(m, d) && Apply(m, d) == m[d.path[0] := Apply(m, d)[d.path[0]]])
  {
  }

  lemma DifferentKeysCommute(m: Object, d: Default, e: Default)
    requires d.path != [] && e.path != [] && d.path[0] != e.path[0]
    ensures Apply(Apply(m, d), e) == Apply(Apply(m, e), d)
  {
    OneAssignment(m, d);
    OneAssignment(m, e);
    if Apply(m, d) == m {
      if Apply(m, e) != m {
        OnlyFirstKey(m, d, e.path[0], Apply(m, e)[e.path[0]]);
      }
    } else {
      OnlyFirstKey(m, e, d.path[0], Apply(m, d)[d.path[0]]);
      if Apply(m, e) != m {
        OnlyFirstKey(m, d, e.path[0], Apply(m, e)[e.path[0]]);
        var x, y := Apply(m, d)[d.path[0]], Apply(m, e)[e.path[0]];
        assert m[d.path[0] := x][e.path[0] := y] == m[e.path[0] := y][d.path[0] := x];
      }
    }
  }

  lemma SameKeyCommute(m: Object, d: Default, e: Default)
    requires |d.path| == 1 && |e.path| == 1 && d.path[0] == e.path[0]
    requires d.value == e.value || NonEmpty(d.value) != NonEmpty(e.value)
    ensures Apply(Apply(m, d), e) == Apply(Apply(m, e), d)
  {
    var a := d.path[0];
    assert d.path == e.path;
    if !IsPresent(m, d.path) {
      assert IsPresent(m[a := d.value], d.path) == NonEmpty(d.value);
      assert IsPresent(m[a := e.value], d.path) == NonEmpty(e.value);
      assert m[a := d.value][a := e.value] == m[a := e.value];
      assert m[a := e.value][a := d.value] == m[a := d.value];
    }
  }

  lemma {:induction false} CompatibleCommute(m: Object, d: Default, e: Default)
    requires Compatible(d, e)
    ensures Apply(Apply(m, d), e) == Apply(Apply(m, e), d)
    decreases d.path
  {
    var p, q := d.path, e.path;
    if p != [] && q != [] {
      if p[0] != q[0] {
        DifferentKeysCommute(m, d, e);
      } else if |p| == 1 && |q| == 1 {
        SameKeyCommute(m, d, e);
      } else if |p| == 1 {
        ShorterFirst(m, d, e);
      } else if |q| == 1 {
        ShorterFirst(m, e, d);
      } else {
        var c := Child(m, p[0]);
        var d', e' := Default(p[1..], d.value), Default(q[1..], e.value);
        CompatibleCommute(c, d', e');
        assert Apply(Apply(m, d), e) == m[p[0] := Obj(Apply(Apply(c, d'), e'))];
        assert Apply(Apply(m, e), d) == m[p[0] := Obj(Apply(Apply(c, e'), d'))];
      }
    }
  }

  lemma EmptyShorterFirst(d: Default, e: Default)
    requires |d.path| == 1 && |e.path| > 1 && d.path[0] == e.path[0]
    requires Apply(Apply(map[], d), e) == Apply(Apply(map[], e), d)
    ensures WritesInto(d.value, e.path[1..], e.value)
  {
    var a, rest := d.path[0], e.path[1..];
    var none: Object := map[];
    SetIsNonEmpty(none, rest, e.value);
    assert Apply(none, d) == map[a := d.value];
    assert Apply(none, e) == map[a := Obj(SetIfAbsent(none, rest, e.value))];
    assert Apply(Apply(none, e), d) == Apply(none, e);
    assert Apply(Apply(none, d), e)[a] == Obj(SetIfAbsent(Child(map[a := d.value], a), rest, e.value));
  }

  /** Two defaults that commute on the empty object are compatible. */
  lemma {:induction false} CommuteOnEmpty(d: Default, e: Default)
    requires Apply(Apply(map[], d), e) == Apply(Apply(map[], e), d)
    ensures Compatible(d, e)
    decreases d.path
  {
    var p, q := d.path, e.path;
    if p != [] && q != [] && p[0] == q[0] {
      var a := p[0];
      if |p| == 1 && |q| == 1 {
        assert p == q;
        assert Apply(map[], d)[a] == d.value && Apply(map[], e)[a] == e.value;
        assert Apply(Apply(map[], d), e)[a] == if NonEmpty(d.value) then d.value else e.value;
        assert Apply(Apply(map[], e), d)[a] == if NonEmpty(e.value) then e.value else d.value;
      } else if |p| == 1 {
        EmptyShorterFirst(d, e);
      } else if |q| == 1 {
        EmptyShorterFirst(e, d);
      } else {
        var d', e' := Default(p[1..], d.value), Default(q[1..], e.value);
        var none: Object := map[];
        assert Apply(Apply(none, d), e)[a] == Obj(Apply(Apply(none, d'), e'));
        assert Apply(Apply(none, e), d)[a] == Obj(Apply(Apply(none, e'), d'));
        CommuteOnEmpty(d', e');
      }
    }
  }

  /** Two defaults can be registered in either order, for every object, exactly when they are compatible. */
  lemma CommuteExactly(d: Default, e: Default)
    ensures Compatible(d, e) <==> forall m: Object :: Apply(Apply(m, d), e) == Apply(Apply(m, e), d)
  {
    if Compatible(d, e) {
      forall m: Object ensures Apply(Apply(m, d), e) == Apply(Apply(m, e), d) {
        CompatibleCommute(m, d, e);
      }
    } else {
      var none: Object := map[];
      if Apply(Apply(none, d), e) == Apply(Apply(none, e), d) {
        CommuteOnEmpty(d, e);
      }
    }
  }

  /** Paths that diverge are compatible whatever the values. */
  lemma {:induction false} DivergentCompatible(d: Default, e: Default)
    requires Diverge(d.path, e.path)
    ensures Compatible(d, e)
    decreases d.path
  {
    if d.path[0] == e.path[0] {
      DivergeTails(d.path, e.path);
      DivergentCompatible(Default(d.path[1..], d.value), Default(e.path[1..], e.value));
    }
  }

  ghost predicate PairwiseCompatible(ds: seq<Default>) {
    forall d, e :: d in ds && e in ds ==> Compatible(d, e)
  }

  lemma {:induction false} ApplyAllConcat(m: Object, a: seq<Default>, b: seq<Default>)
    ensures ApplyAll(m, a + b) == ApplyAll(ApplyAll(m, a), b)
    decreases a
  {
    if a == [] {
      assert a + b == b;
    } else {
      assert (a + b)[0] == a[0] && (a + b)[1..] == a[1..] + b;
      ApplyAllConcat(Apply(m, a[0]), a[1..], b);
    }
  }

  /** A default compatible with all before it may as well come first. */
  lemma {:induction false} MoveToFront(m: Object, a: seq<Default>, d: Default)
    requires forall e :: e in a ==> Compatible(e, d)
    ensures Apply(ApplyAll(m, a), d) == ApplyAll(Apply(m, d), a)
    decreases a
  {
    if a == [] {
    } else {
      MoveToFront(Apply(m, a[0]), a[1..], d);
      CompatibleCommute(m, a[0], d);
    }
  }

  lemma RemoveOne(ds: seq<Default>, es: seq<Default>, i: nat)
    requires ds != [] && i < |es| && es[i] == ds[0] && multiset(ds) == multiset(es)
    ensures es == es[..i] + [ds[0]] + es[i + 1..]
    ensures multiset(ds[1..]) == multiset(es[..i] + es[i + 1..])
  {
    var before, after := es[..i], es[i + 1..];
    assert ds == [ds[0]] + ds[1..];
    assert es == before + [ds[0]] + after;
    assert multiset(ds[1..]) == multiset(ds) - multiset{ds[0]};
    assert multiset(before + after) == multiset(es) - multiset{ds[0]};
  }

  /** Registration order does not matter: every permutation of compatible defaults yields the same object. */
  lemma {:induction false} OrderIrrelevant(m: Object, ds: seq<Default>, es: seq<Default>)
    requires multiset(ds) == multiset(es) && PairwiseCompatible(ds)
    ensures ApplyAll(m, ds) == ApplyAll(m, es)
    decreases ds
  {
    if ds == [] {
      assert |multiset(es)| == 0;
      assert es == [];
    } else {
      var d, rest := ds[0], ds[1..];
      assert d in multiset(ds);
      var i :| 0 <= i < |es| && es[i] == d;
      var before, after := es[..i], es[i + 1..];
      RemoveOne(ds, es, i);
      assert forall e :: e in ds <==> e in multiset(ds);
      assert forall e :: e in before ==> e in multiset(es);
      ApplyAllConcat(m, before + [d], after);
      ApplyAllConcat(m, before, [d]);
      MoveToFront(m, before, d);
      ApplyAllConcat(Apply(m, d), before, after);
      OrderIrrelevant(Apply(m, d), rest, before + after);
    }
  }

  lemma {:induction false} ApplyAllKeepsPresence(m: Object, ds: seq<Default>, q: Path)
    requires IsPresent(m, q)
    ensures IsPresent(ApplyAll(m, ds), q)
    decreases ds
  {
    if ds == [] {
    } else {
      SetKeepsPresence(m, ds[0].path, ds[0].value, q);
      ApplyAllKeepsPresence(Apply(m, ds[0]), ds[1..], q);
    }
  }

  /** After a pass of defaults every path they name is present. */
  lemma {:induction false} ApplyAllMakesPresent(m: Object, ds: seq<Default>, k: nat)
    requires k < |ds| && NonEmpty(ds[k].value) && ds[k].path != []
    ensures IsPresent(ApplyAll(m, ds), ds[k].path)
    decreases ds
  {
    if k == 0 {
      SetMakesPresent(m, ds[0].path, ds[0].value);
      ApplyAllKeepsPresence(Apply(m, ds[0]), ds[1..], ds[0].path);
    } else {
      ApplyAllMakesPresent(Apply(m, ds[0]), ds[1..], k - 1);
    }
  }

  /** What an object holds under one key. */
  function Held(m: Object, key: string): Option<Json> {
    if key in m then Some(m[key]) else None
  }

  function ChildOf(held: Option<Json>): Object {
    if held.Some? && held.value.Obj? then held.value.fields else map[]
  }

  predicate Full(held: Option<Json>) {
    held.Some? && NonEmpty(held.value)
  }

  /** What one default does to what is held under its first key. */
  function HeldAfter(held: Option<Json>, d: Default): Option<Json>
    requires d.path != []
  {
    if |d.path| == 1 then if Full(held) then held else Some(d.value)
    else Some(Obj(SetIfAbsent(ChildOf(held), d.path[1..], d.value)))
  }

  predicate About(d: Default, key: string) { d.path != [] && d.path[0] == key }

  function HeldAfterAll(held: Option<Json>, ds: seq<Default>, key: string): Option<Json>
    decreases ds
  {
    if ds == [] then held
    else HeldAfterAll(if About(ds[0], key) then HeldAfter(held, ds[0]) else held, ds[1..], key)
  }

  /** The defaults below a key, with the key taken off their paths. */
  function Below(ds: seq<Default>, key: string): seq<Default> {
    if ds == [] then []
    else if About(ds[0], key) && |ds[0].path| > 1
    then [Default(ds[0].path[1..], ds[0].value)] + Below(ds[1..], key)
    else Below(ds[1..], key)
  }

  lemma {:induction false} KeysAreIndependent(m: Object, ds: seq<Default>, key: string)
    ensures Held(ApplyAll(m, ds), key) == HeldAfterAll(Held(m, key), ds, key)
    decreases ds
  {
    if ds == [] {
    } else {
      KeysAreIndependent(Apply(m, ds[0]), ds[1..], key);
      if About(ds[0], key) {
        assert |ds[0].path| == 1 ==> ds[0].path == [key];
      }
    }
  }

  /** Under a key that holds a non-empty object, only the defaults below it do anything. */
  lemma {:induction false} ObjectHeld(c: Object, ds: seq<Default>, key: string)
    requires c != map[]
    ensures HeldAfterAll(Some(Obj(c)), ds, key) == Some(Obj(ApplyAll(c, Below(ds, key))))
    decreases ds
  {
    if ds == [] {
    } else {
      if About(ds[0], key) && |ds[0].path| > 1 {
        var d := Default(ds[0].path[1..], ds[0].value);
        SetIsNonEmpty(c, d.path, d.value);
        ObjectHeld(Apply(c, d), ds[1..], key);
        assert Below(ds, key)[1..] == Below(ds[1..], key);
      } else {
        ObjectHeld(c, ds[1..], key);
      }
    }
  }

  lemma {:induction false} StaysNonEmpty(m: Object, ds: seq<Default>)
    requires m != map[]
    ensures ApplyAll(m, ds) != map[]
    decreases ds
  {
    if ds == [] {
    } else {
      if ds[0].path != [] {
        SetIsNonEmpty(m, ds[0].path, ds[0].value);
      }
      StaysNonEmpty(Apply(m, ds[0]), ds[1..]);
    }
  }

  /** If some default reaches below the key, an object results to which all those below were applied. */
  lemma {:induction false} SomeBelow(held: Option<Json>, ds: seq<Default>, key: string) returns (c: Object)
    requires Below(ds, key) != []
    ensures HeldAfterAll(held, ds, key) == Some(Obj(ApplyAll(c, Below(ds, key))))
    ensures ApplyAll(c, Below(ds, key)) != map[]
    decreases ds
  {
    if About(ds[0], key) && |ds[0].path| > 1 {
      var d := Default(ds[0].path[1..], ds[0].value);
      c := ChildOf(held);
      SetIsNonEmpty(c, d.path, d.value);
      ObjectHeld(Apply(c, d), ds[1..], key);
      assert Below(ds, key)[1..] == Below(ds[1..], key);
      StaysNonEmpty(Apply(c, d), Below(ds[1..], key));
    } else {
      c := SomeBelow(if About(ds[0], key) then HeldAfter(held, ds[0]) else held, ds[1..], key);
    }
  }

  lemma {:induction false} FullStays(held: Option<Json>, ds: seq<Default>, key: string)
    requires Below(ds, key) == [] && Full(held)
    ensures HeldAfterAll(held, ds, key) == held
    decreases ds
  {
    if ds == [] {
    } else {
      FullStays(held, ds[1..], key);
    }
  }

  /** With nothing below the key, what is absent does not matter once a default is about the key. */
  lemma {:induction false} AbsentForgotten(held: Option<Json>, other: Option<Json>, ds: seq<Default>, key: string)
    requires Below(ds, key) == [] && !Full(held) && !Full(other)
    ensures (HeldAfterAll(held, ds, key) == held && HeldAfterAll(other, ds, key) == other)
         || HeldAfterAll(held, ds, key) == HeldAfterAll(other, ds, key)
    decreases ds
  {
    if ds != [] && !About(ds[0], key) {
      AbsentForgotten(held, other, ds[1..], key);
    }
  }

  lemma NoneBelowIdempotent(held: Option<Json>, ds: seq<Default>, key: string)
    requires Below(ds, key) == []
    ensures var once := HeldAfterAll(held, ds, key); HeldAfterAll(once, ds, key) == once
  {
    var once := HeldAfterAll(held, ds, key);
    if Full(once) {
      FullStays(once, ds, key);
    } else if Full(held) {
      FullStays(held, ds, key);
    } else {
      AbsentForgotten(held, once, ds, key);
    }
  }

  ghost predicate PathsWithin(ds: seq<Default>, n: nat) {
    forall k :: 0 <= k < |ds| ==> |ds[k].path| <= n
  }

  lemma {:induction false} BelowWithin(ds: seq<Default>, key: string, n: nat)
    requires PathsWithin(ds, n)
    ensures PathsWithin(Below(ds, key), if n > 0 then n - 1 else 0)
    ensures n == 0 ==> Below(ds, key) == []
    decreases ds
  {
    if ds == [] {
    } else {
      assert forall k :: 0 <= k < |ds[1..]| ==> ds[1..][k] == ds[k + 1];
      BelowWithin(ds[1..], key, n);
    }
  }

  lemma SameHeld(m: Object, m': Object)
    requires forall key :: Held(m, key) == Held(m', key)
    ensures m == m'
  {
    forall key ensures key in m <==> key in m' {
      assert Held(m, key) == Held(m', key);
    }
    forall key | key in m ensures m[key] == m'[key] {
      assert Held(m, key) == Held(m', key);
    }
  }

  lemma {:induction false} PassIsIdempotentWithin(m: Object, ds: seq<Default>, n: nat)
    requires PathsWithin(ds, n)
    ensures ApplyAll(ApplyAll(m, ds), ds) == ApplyAll(m, ds)
    decreases n
  {
    var once, twice := ApplyAll(m, ds), ApplyAll(ApplyAll(m, ds), ds);
    forall key ensures Held(twice, key) == Held(once, key) {
      KeysAreIndependent(m, ds, key);
      KeysAreIndependent(once, ds, key);
      BelowWithin(ds, key, n);
      if Below(ds, key) == [] {
        NoneBelowIdempotent(Held(m, key), ds, key);
      } else {
        var c := SomeBelow(Held(m, key), ds, key);
        ObjectHeld(ApplyAll(c, Below(ds, key)), ds, key);
        PassIsIdempotentWithin(c, Below(ds, key), n - 1);
      }
    }
    SameHeld(twice, once);
  }

  function LongestPath(ds: seq<Default>): nat {
    if ds == [] then 0
    else
      var n := LongestPath(ds[1..]);
      if |ds[0].path| > n then |ds[0].path| else n
  }

  lemma {:induction false} LongestIsBound(ds: seq<Default>)
    ensures PathsWithin(ds, LongestPath(ds))
  {
    if ds == [] {
    } else {
      LongestIsBound(ds[1..]);
      assert forall k :: 1 <= k < |ds| ==> ds[k] == ds[1..][k - 1];
    }
  }

  /** A second pass of the same defaults changes nothing, whatever their paths and values. */
  lemma PassIsIdempotent(m: Object, ds: seq<Default>)
    ensures ApplyAll(ApplyAll(m, ds), ds) == ApplyAll(m, ds)
  {
    LongestIsBound(ds);
    PassIsIdempotentWithin(m, ds, LongestPath(ds));
  }
}
