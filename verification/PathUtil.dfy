/**
 * Dot-delimited paths into JSON objects: lookup, presence, and setting a default where a path is
 * absent.
 */
module PathUtil {
  import opened Wrappers

  datatype Json =
    | Null
    | Bool(b: bool)
    | Num(n: real)
    | Str(s: string)
    | Arr(items: seq<Json>)
    | Obj(fields: map<string, Json>)

  type Object = map<string, Json>

  type Path = seq<string>

  function Segments(p: string): (r: Path)
    ensures r != []
  {
    if p == "" then [""]
    else
      var rest := Segments(p[1..]);
      if p[0] == '.' then [""] + rest else [[p[0]] + rest[0]] + rest[1..]
  }

  /** The segments between dots; the empty string has none. */
  function SplitPath(p: string): Path {
    if p == "" then [] else Segments(p)
  }

  function JoinPath(path: Path): string {
    if path == [] then "" else if |path| == 1 then path[0] else path[0] + "." + JoinPath(path[1..])
  }

  predicate DotFree(path: Path) {
    forall i :: 0 <= i < |path| ==> '.' !in path[i]
  }

  /** Splitting cuts at every dot, and loses nothing: no two path strings have the same segments. */
  lemma {:induction false} SplitRoundTrip(p: string)
    ensures DotFree(Segments(p)) && JoinPath(Segments(p)) == p
    ensures JoinPath(SplitPath(p)) == p && (SplitPath(p) == [] <==> p == "")
  {
    if p == "" {
    } else {
      SplitRoundTrip(p[1..]);
      var rest := Segments(p[1..]);
      if p[0] == '.' {
        assert ([""] + rest)[1..] == rest;
      } else {
        assert p == [p[0]] + p[1..];
        assert ([[p[0]] + rest[0]] + rest[1..])[1..] == rest[1..];
      }
    }
  }

  lemma {:induction false} SegmentsOfFirst(s: string, rest: string)
    requires '.' !in s
    ensures Segments(s) == [s]
    ensures Segments(s + "." + rest) == [s] + Segments(rest)
  {
    if s == "" {
      assert ("" + "." + rest)[1..] == rest;
    } else {
      SegmentsOfFirst(s[1..], rest);
      assert (s + "." + rest)[1..] == s[1..] + "." + rest;
      assert [s[0]] + s[1..] == s;
    }
  }

  /** Any list of names without dots is what its dotted path is split into, but for one empty name. */
  lemma {:induction false} JoinRoundTrip(path: Path)
    requires path != [] && DotFree(path)
    ensures Segments(JoinPath(path)) == path
    ensures path != [""] ==> SplitPath(JoinPath(path)) == path
  {
    SegmentsOfFirst(path[0], JoinPath(path[1..]));
    if |path| == 1 {
      assert path == [path[0]];
    } else {
      JoinRoundTrip(path[1..]);
      assert path == [path[0]] + path[1..];
    }
  }

  function Lookup(m: Object, path: Path): Option<Json>
    decreases path
  {
    if path == [] || path[0] !in m then None
    else if |path| == 1 then Some(m[path[0]])
    else if m[path[0]].Obj? then Lookup(m[path[0]].fields, path[1..])
    else None
  }

  /** Null and the empty string, list and object count as absent. */
  predicate NonEmpty(v: Json) {
    match v
    case Null => false
    case Str(s) => s != ""
    case Arr(items) => items != []
    case Obj(fields) => fields != map[]
    case _ => true
  }

  predicate IsPresent(m: Object, path: Path) {
    var v := Lookup(m, path);
    v.Some? && NonEmpty(v.value)
  }

  /** The object under a key, or an empty one if there is none or it is no object. */
  function Child(m: Object, key: string): Object {
    if key in m && m[key].Obj? then m[key].fields else map[]
  }

  /**
   * Writes the value where the path is absent. Intermediate values that are not objects are
   * replaced by objects, even when they are present.
   */
  function SetIfAbsent(m: Object, path: Path, value: Json): Object
    decreases path
  {
    if path == [] then m
    else if |path| == 1 then if IsPresent(m, path) then m else m[path[0] := value]
    else m[path[0] := Obj(SetIfAbsent(Child(m, path[0]), path[1..], value))]
  }

  /** The object a path leads to through objects only; the empty path leads to the root. */
  function ObjectAt(m: Object, path: Path): Option<Object>
    decreases path
  {
    if path == [] then Some(m)
    else if path[0] in m && m[path[0]].Obj? then ObjectAt(m[path[0]].fields, path[1..])
    else None
  }

  /** Assigns a key of the nested object a path leads to: what writing through a reference to it does. */
  function WriteAt(m: Object, path: Path, key: string, value: Json): Object
    requires ObjectAt(m, path).Some?
    decreases path
  {
    if path == [] then m[key := value]
    else m[path[0] := Obj(WriteAt(m[path[0]].fields, path[1..], key, value))]
  }

  lemma {:induction false} WriteAtLeadsOn(m: Object, path: Path, key: string, fields: Object)
    requires ObjectAt(m, path).Some?
    ensures ObjectAt(WriteAt(m, path, key, Obj(fields)), path + [key]) == Some(fields)
    decreases path
  {
    if path == [] {
      assert ([] + [key])[1..] == [];
    } else {
      WriteAtLeadsOn(m[path[0]].fields, path[1..], key, fields);
      assert (path + [key])[1..] == path[1..] + [key];
    }
  }

  lemma {:induction false} ObjectAtLeadsOn(m: Object, path: Path, key: string)
    requires ObjectAt(m, path).Some? && key in ObjectAt(m, path).value && ObjectAt(m, path).value[key].Obj?
    ensures ObjectAt(m, path + [key]) == Some(ObjectAt(m, path).value[key].fields)
    decreases path
  {
    if path == [] {
      assert ([] + [key])[1..] == [];
    } else {
      ObjectAtLeadsOn(m[path[0]].fields, path[1..], key);
      assert (path + [key])[1..] == path[1..] + [key];
    }
  }

  /** Creating a missing intermediate object first does not change what setting the path yields. */
  lemma {:induction false} IntermediateIsHarmless(m: Object, path: Path, i: nat, value: Json)
    requires i < |path| - 1 && ObjectAt(m, path[..i]).Some?
    requires var cur := ObjectAt(m, path[..i]).value; !(path[i] in cur && cur[path[i]].Obj?)
    ensures SetIfAbsent(WriteAt(m, path[..i], path[i], Obj(map[])), path, value) == SetIfAbsent(m, path, value)
    decreases path
  {
    if i == 0 {
    } else {
      var sub := m[path[0]].fields;
      assert path[..i][1..] == path[1..][..i - 1];
      IntermediateIsHarmless(sub, path[1..], i - 1, value);
      var m' := WriteAt(m, path[..i], path[i], Obj(map[]));
      assert Child(m', path[0]) == WriteAt(sub, path[1..][..i - 1], path[i], Obj(map[]));
      assert Child(m, path[0]) == sub;
    }
  }

  /** Once the path leads to the last object, setting is one conditional write. */
  lemma {:induction false} LastWrite(m: Object, path: Path, value: Json)
    requires path != [] && ObjectAt(m, path[..|path| - 1]).Some?
    ensures var n := |path| - 1;
      SetIfAbsent(m, path, value)
        == if IsPresent(ObjectAt(m, path[..n]).value, [path[n]]) then m
           else WriteAt(m, path[..n], path[n], value)
    decreases path
  {
    var n := |path| - 1;
    if n == 0 {
      assert path == [path[0]];
    } else {
      assert path[..n][1..] == path[1..][..n - 1];
      LastWrite(m[path[0]].fields, path[1..], value);
      assert m == m[path[0] := Obj(m[path[0]].fields)];
    }
  }

  /** An object some mutators share; nested objects are reached by the path that leads to them. */
  class ObjectRef {
    var root: Object

    constructor (root: Object)
      ensures this.root == root
    {
      this.root := root;
    }

    /** Walks down the path, creating objects on the way, and writes the last key if it is absent. */
    method Set(path: Path, value: Json)
      modifies this
      ensures root == SetIfAbsent(old(root), path, value)
    {
      if path == [] {
        return;
      }
      var i := 0;
      assert path[..0] == [];
      while i < |path| - 1
        invariant 0 <= i <= |path| - 1
        invariant ObjectAt(root, path[..i]).Some?
        invariant SetIfAbsent(root, path, value) == SetIfAbsent(old(root), path, value)
      {
        var cur := ObjectAt(root, path[..i]).value;
        assert path[..i + 1] == path[..i] + [path[i]];
        if !(path[i] in cur && cur[path[i]].Obj?) {
          IntermediateIsHarmless(root, path, i, value);
          WriteAtLeadsOn(root, path[..i], path[i], map[]);
          root := WriteAt(root, path[..i], path[i], Obj(map[]));
        } else {
          ObjectAtLeadsOn(root, path[..i], path[i]);
        }
        i := i + 1;
      }
      LastWrite(root, path, value);
      var cur := ObjectAt(root, path[..i]).value;
      if !IsPresent(cur, [path[i]]) {
        root := WriteAt(root, path[..i], path[i], value);
      }
    }
  }

  /** What is under a value along a path; the value itself for the empty path. */
  function Descend(cur: Json, path: Path): Option<Json> {
    if path == [] then Some(cur)
    else if cur.Obj? && path[0] in cur.fields then Descend(cur.fields[path[0]], path[1..])
    else None
  }

  lemma {:induction false} DescendIsLookup(m: Object, path: Path)
    requires path != []
    ensures Descend(Obj(m), path) == Lookup(m, path)
    decreases path
  {
    if path[0] in m {
      if |path| == 1 {
        assert path[1..] == [];
      } else if m[path[0]].Obj? {
        DescendIsLookup(m[path[0]].fields, path[1..]);
      }
    }
  }

  method Find(m: Object, path: Path) returns (v: Option<Json>)
    ensures v == Lookup(m, path)
  {
    if path == [] {
      return None;
    }
    var cur := Obj(m);
    DescendIsLookup(m, path);
    for i := 0 to |path|
      invariant Descend(cur, path[i..]) == Lookup(m, path)
    {
      if !cur.Obj? {
        return None;
      }
      if path[i] !in cur.fields {
        return None;
      }
      assert path[i..][1..] == path[i + 1..];
      cur := cur.fields[path[i]];
    }
    return Some(cur);
  }

  function Collapsed(v: Json): Json {
    if v == Obj(map[]) then Null else v
  }

  /** Equality once an empty object, but only at the top, is taken for nothing: an equivalence. */
  predicate DeepEqual(a: Json, b: Json): (r: bool)
    ensures r <==> Collapsed(a) == Collapsed(b)
  {
    if a == Null && b == Null then true
    else if a == Obj(map[]) && (b == Obj(map[]) || b == Null) then true
    else if b == Obj(map[]) && a == Null then true
    else a == b
  }
}
