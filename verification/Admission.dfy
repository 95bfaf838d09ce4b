/**
 * The admission chain: mutators that rewrite a request's object in registration order, then
 * validators that may reject it. Bundled plugins are modelled as they are; any other plugin is a
 * function of the request.
 */
module Admission {
  import opened Wrappers
  import opened PathUtil

  datatype Operation = Create | Update | Delete

  /** A formatted time is never the empty string. */
  type Stamp = s: string | s != "" witness "t"

  datatype Request = Request(operation: Operation, name: string, content: Object, oldContent: Option<Object>)

  datatype Mutator =
    | DefaultValue(name: string, path: string, value: Json)
    | Timestamp(name: string, stamp: Stamp)
    | OtherMutator(name: string, run: Request -> (Object, Option<string>))

  datatype Reason =
    | Missing(fields: seq<string>)
    | NameEmpty
    | NameMismatch
    | FieldImmutable(field: string)
    | Stated(message: string)

  /** A validator's error: a rejection, or any other error, which the chain turns into one. */
  datatype Refusal = Rejection(plugin: string, reason: Reason) | OtherError(message: string)

  datatype Validator =
    | RequiredFields(name: string, fields: seq<string>)
    | NameFormat(name: string, pattern: Option<string -> bool>)
    | ImmutableFields(name: string, fields: seq<string>)
    | OtherValidator(name: string, check: Request -> Option<Refusal>)

  datatype AdmitError = MutatorFailed(plugin: string, cause: string) | Rejected(plugin: string, reason: Reason)

  /** Stamps metadata, creating it if it is no object. */
  function Stamped(operation: Operation, m: Object, stamp: Stamp): Object {
    var meta := Child(m, "metadata");
    var stamped :=
      match operation
      case Create =>
        (if "creationTimestamp" in meta then meta else meta["creationTimestamp" := Str(stamp)])
          ["lastModified" := Str(stamp)]
      case Update => meta["lastModified" := Str(stamp)]
      case Delete => meta;
    m["metadata" := Obj(stamped)]
  }

  /** A mutator's effect on the object, and its error. */
  function Mutated(m: Mutator, r: Request): (Object, Option<string>) {
    match m
    case DefaultValue(_, path, value) => (SetIfAbsent(r.content, SplitPath(path), value), None)
    case Timestamp(_, stamp) => (Stamped(r.operation, r.content, stamp), None)
    case OtherMutator(_, run) => run(r)
  }

  /** The mutators run in order; the first error stops them, keeping what was written so far. */
  function MutatedBy(ms: seq<Mutator>, r: Request): (Object, Option<AdmitError>)
    decreases ms
  {
    if ms == [] then (r.content, None)
    else
      var (content, err) := Mutated(ms[0], r);
      if err.Some? then (content, Some(MutatorFailed(ms[0].name, err.value)))
      else MutatedBy(ms[1..], r.(content := content))
  }

  /** The fields of a list the object lacks, in order. */
  function MissingFields(fields: seq<string>, m: Object): seq<string> {
    if fields == [] then []
    else MissingFields(fields[..|fields| - 1], m)
         + if IsPresent(m, SplitPath(fields[|fields| - 1])) then [] else [fields[|fields| - 1]]
  }

  /** The value of a field, null if there is none. */
  function FieldOf(m: Object, field: string): Json {
    var v := Lookup(m, SplitPath(field));
    if v.Some? then v.value else Null
  }

  predicate Unchanged(before: Object, m: Object, field: string) {
    DeepEqual(FieldOf(before, field), FieldOf(m, field))
  }

  /** The first of the fields whose value changed. */
  function FirstChanged(fields: seq<string>, before: Object, m: Object): Option<string> {
    if fields == [] then None
    else if !Unchanged(before, m, fields[0]) then Some(fields[0])
    else FirstChanged(fields[1..], before, m)
  }

  function Checked(v: Validator, r: Request): Option<Refusal> {
    match v
    case RequiredFields(name, fields) =>
      var missing := MissingFields(fields, r.content);
      if missing == [] then None else Some(Rejection(name, Missing(missing)))
    case NameFormat(name, pattern) =>
      if r.name == "" then Some(Rejection(name, NameEmpty))
      else if pattern.Some? && !pattern.value(r.name) then Some(Rejection(name, NameMismatch))
      else None
    case ImmutableFields(name, fields) =>
      if r.operation != Update || r.oldContent.None? then None
      else
        var changed := FirstChanged(fields, r.oldContent.value, r.content);
        if changed.None? then None else Some(Rejection(name, FieldImmutable(changed.value)))
    case OtherValidator(_, check) => check(r)
  }

  function Wrapped(v: Validator, refusal: Refusal): AdmitError {
    match refusal
    case Rejection(plugin, reason) => Rejected(plugin, reason)
    case OtherError(message) => Rejected(v.name, Stated(message))
  }

  /** The first refusal among the validators. */
  function Refused(vs: seq<Validator>, r: Request): Option<AdmitError>
    decreases vs
  {
    if vs == [] then None
    else
      var refusal := Checked(vs[0], r);
      if refusal.Some? then Some(Wrapped(vs[0], refusal.value)) else Refused(vs[1..], r)
  }

  /** What admission leaves in the request's object, and its error. */
  function Admitted(ms: seq<Mutator>, vs: seq<Validator>, r: Request): (Object, Option<AdmitError>) {
    var (content, err) := MutatedBy(ms, r);
    (content, if err.Some? then err else Refused(vs, r.(content := content)))
  }

  method FindMissing(fields: seq<string>, m: Object) returns (missing: seq<string>)
    ensures missing == MissingFields(fields, m)
  {
    missing := [];
    for i := 0 to |fields|
      invariant missing == MissingFields(fields[..i], m)
    {
      assert fields[..i + 1][..i] == fields[..i];
      if !IsPresent(m, SplitPath(fields[i])) {
        missing := missing + [fields[i]];
      }
    }
    assert fields[..|fields|] == fields;
  }

  method FindChanged(fields: seq<string>, before: Object, m: Object) returns (changed: Option<string>)
    ensures changed == FirstChanged(fields, before, m)
  {
    for i := 0 to |fields|
      invariant FirstChanged(fields[i..], before, m) == FirstChanged(fields, before, m)
    {
      var path := SplitPath(fields[i]);
      var x := Find(before, path);
      var y := Find(m, path);
      if !DeepEqual(if x.Some? then x.value else Null, if y.Some? then y.value else Null) {
        return Some(fields[i]);
      }
      assert fields[i..][1..] == fields[i + 1..];
    }
    return None;
  }

  method Check(v: Validator, r: Request) returns (refusal: Option<Refusal>)
    ensures refusal == Checked(v, r)
  {
    match v {
      case RequiredFields(name, fields) =>
        var missing := FindMissing(fields, r.content);
        return if |missing| > 0 then Some(Rejection(name, Missing(missing))) else None;
      case NameFormat(name, pattern) =>
        if r.name == "" {
          return Some(Rejection(name, NameEmpty));
        }
        return if pattern.Some? && !pattern.value(r.name) then Some(Rejection(name, NameMismatch)) else None;
      case ImmutableFields(name, fields) =>
        if r.operation != Update || r.oldContent.None? {
          return None;
        }
        var changed := FindChanged(fields, r.oldContent.value, r.content);
        return if changed.Some? then Some(Rejection(name, FieldImmutable(changed.value))) else None;
      case OtherValidator(_, check) =>
        return check(r);
    }
  }

  /** The request all plugins share; its object is rewritten through the reference. */
  class AdmissionRequest {
    const operation: Operation
    const name: string
    const content: ObjectRef
    const oldContent: Option<Object>

    constructor (operation: Operation, name: string, content: ObjectRef, oldContent: Option<Object>)
      ensures this.operation == operation && this.name == name && this.content == content
      ensures this.oldContent == oldContent
    {
      this.operation, this.name, this.content, this.oldContent := operation, name, content, oldContent;
    }

    function View(): Request
      reads content
    {
      Request(operation, name, content.root, oldContent)
    }
  }

  class Chain {
    var mutators: seq<Mutator>
    var validators: seq<Validator>

    constructor ()
      ensures mutators == [] && validators == []
    {
      mutators, validators := [], [];
    }

    method RegisterMutator(m: Mutator)
      modifies this`mutators
      ensures mutators == old(mutators) + [m]
    {
      mutators := mutators + [m];
    }

    method RegisterValidator(v: Validator)
      modifies this`validators
      ensures validators == old(validators) + [v]
    {
      validators := validators + [v];
    }

    method StampTimes(req: AdmissionRequest, stamp: Stamp)
      modifies req.content
      ensures req.content.root == Stamped(req.operation, old(req.content.root), stamp)
    {
      var root := req.content.root;
      var meta := map[];
      if "metadata" in root && root["metadata"].Obj? {
        meta := root["metadata"].fields;
      }
      match req.operation {
        case Create =>
          if "creationTimestamp" !in meta {
            meta := meta["creationTimestamp" := Str(stamp)];
          }
          meta := meta["lastModified" := Str(stamp)];
        case Update =>
          meta := meta["lastModified" := Str(stamp)];
        case Delete =>
      }
      req.content.root := root["metadata" := Obj(meta)];
    }

    method Mutate(m: Mutator, req: AdmissionRequest) returns (err: Option<string>)
      modifies req.content
      ensures (req.content.root, err) == Mutated(m, old(req.View()))
    {
      match m {
        case DefaultValue(_, path, value) =>
          req.content.Set(SplitPath(path), value);
          return None;
        case Timestamp(_, stamp) =>
          StampTimes(req, stamp);
          return None;
        case OtherMutator(_, run) =>
          var (content, e) := run(req.View());
          req.content.root := content;
          return e;
      }
    }

    method Validate(r: Request) returns (err: Option<AdmitError>)
      ensures err == Refused(validators, r)
    {
      for i := 0 to |validators|
        invariant Refused(validators[i..], r) == Refused(validators, r)
      {
        var refusal := Check(validators[i], r);
        if refusal.Some? {
          return Some(Wrapped(validators[i], refusal.value));
        }
        assert validators[i..][1..] == validators[i + 1..];
      }
      return None;
    }

    method Admit(req: AdmissionRequest) returns (err: Option<AdmitError>)
      modifies req.content
      ensures (req.content.root, err) == Admitted(mutators, validators, old(req.View()))
    {
      for i := 0 to |mutators|
        invariant MutatedBy(mutators[i..], req.View()) == MutatedBy(mutators, old(req.View()))
      {
        var e := Mutate(mutators[i], req);
        if e.Some? {
          return Some(MutatorFailed(mutators[i].name, e.value));
        }
        assert mutators[i..][1..] == mutators[i + 1..];
      }
      assert mutators[|mutators|..] == [];
      err := Validate(req.View());
    }
  }
}
