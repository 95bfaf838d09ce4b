/**
 * Uniqueness of endpoints over runs of creations, updates and deletions, and exactly which
 * updates break it.
 */
module EndpointRuns {
  import opened Wrappers
  import opened GoStrings
  import opened EndpointTable

  predicate Known(kind: string) { kind == "rest" || kind == "graphql" }

  /** Stored records know their identifier, have one of the two types, and a method and a path. */
  predicate WellFormed(id: string, e: Endpoint) {
    && e.id == id != ""
    && Known(e.apiType)
    && TrimSpace(e.verb) != ""
    && TrimSpace(e.path) != ""
  }

  ghost predicate Sound(t: map<string, Endpoint>) {
    forall k :: k in t ==> WellFormed(k, t[k])
  }

  predicate Same(e: Endpoint, f: Endpoint) {
    e.apiType == f.apiType && Signature(e.apiType, e.verb, e.path) == Signature(f.apiType, f.verb, f.path)
  }

  /** No two APIs of one type share a signature. */
  ghost predicate Unique(t: map<string, Endpoint>) {
    forall i, j :: i in t && j in t && i != j ==> !Same(t[i], t[j])
  }

  lemma KnownType(kind: string)
    requires Known(kind)
    ensures TrimSpace(kind) == kind && TypeOf(kind) == kind
  {
    assert Trimmed(kind);
    TrimmedStays(kind);
    assert ToLower(kind) == kind;
  }

  /** An API of the table other than `id` already has the endpoint of `e`. */
  ghost predicate Clashes(t: map<string, Endpoint>, id: string, e: Endpoint) {
    exists k :: k in t && k != id && Same(t[k], e)
  }

  /** The program's duplicate check finds exactly the clashes. */
  lemma DuplicateMeansClash(t: map<string, Endpoint>, e: Endpoint, excludeID: string)
    requires Sound(t) && Known(e.apiType)
    ensures HasDuplicate(t, e.apiType, Signature(e.apiType, e.verb, e.path), excludeID)
       <==> exists k :: k in t && !(excludeID != "" && k == excludeID) && Same(t[k], e)
  {
    forall k | k in t
      ensures Duplicates(t[k], e.apiType, Signature(e.apiType, e.verb, e.path), excludeID)
         <==> !(excludeID != "" && k == excludeID) && Same(t[k], e)
    {
      assert WellFormed(k, t[k]);
      KnownType(t[k].apiType);
    }
  }

  lemma ReplaceKeepsUnique(t: map<string, Endpoint>, id: string, e: Endpoint)
    requires Unique(t)
    ensures Unique(t[id := e]) <==> !Clashes(t, id, e)
  {
    var t' := t[id := e];
    if Clashes(t, id, e) {
      var k :| k in t && k != id && Same(t[k], e);
      assert Same(t'[k], t'[id]);
    }
  }

  lemma RequestedWellFormed(id: string, req: CreateRequest)
    requires id != ""
    requires var e := Requested(id, req); Known(e.apiType) && (e.apiType == "rest" ==> e.verb != "" && e.path != "")
    ensures WellFormed(id, Requested(id, req))
  {
    TrimSpaceTrims(req.verb);
    TrimSpaceTrims(req.path);
    TrimmedStays(Requested(id, req).verb);
    TrimmedStays(Requested(id, req).path);
  }

  lemma CreateKeeps(t: map<string, Endpoint>, id: string, req: CreateRequest)
    requires Sound(t) && id != ""
    ensures var t' := Created(t, id, req).1; Sound(t') && (Unique(t) ==> Unique(t'))
  {
    if CreateStatus(t, id, req) == CREATED {
      var e := Requested(id, req);
      RequestedWellFormed(id, req);
      DuplicateMeansClash(t, e, "");
      if Unique(t) {
        ReplaceKeepsUnique(t, id, e);
      }
    }
  }

  /** A given field stays non-empty when it is stored trimmed, in upper case or as it is. */
  lemma GivenStays(s: string)
    ensures TrimSpace(s) != "" ==> TrimSpace(TrimSpace(s)) != "" && TrimSpace(ToUpper(TrimSpace(s))) != ""
    ensures TrimSpace(s) != "" ==> ToUpper(TrimSpace(s)) != ""
  {
    TrimSpaceTrims(s);
    if TrimSpace(s) != "" {
      TrimmedStays(TrimSpace(s));
      TrimmedStays(ToUpper(TrimSpace(s)));
    }
  }

  lemma EditedWellFormed(id: string, e: Endpoint, req: UpdateRequest)
    requires WellFormed(id, e)
    ensures WellFormed(id, Edited(e, req))
  {
    KnownType(e.apiType);
    if req.verb.Some? {
      GivenStays(req.verb.value);
    }
    if req.path.Some? {
      GivenStays(req.path.value);
    }
    if req.endpoint.Some? {
      GivenStays(req.endpoint.value);
    }
  }

  lemma FinalWellFormed(id: string, e: Endpoint, req: UpdateRequest)
    requires WellFormed(id, e)
    ensures WellFormed(id, Final(e, req))
  {
    EditedWellFormed(id, e, req);
  }

  lemma ChangedMeansOther(id: string, before: Endpoint, e: Endpoint)
    requires WellFormed(id, before) && WellFormed(id, e)
    ensures EndpointChanged(before, e) <==> !Same(before, e)
  {
    KnownType(e.apiType);
    KnownType(before.apiType);
  }

  lemma DuplicateMeansOther(t: map<string, Endpoint>, id: string, e: Endpoint)
    requires Sound(t) && WellFormed(id, e)
    ensures HasDuplicate(t, e.apiType, Signature(e.apiType, e.verb, e.path), e.id) <==> Clashes(t, id, e)
  {
    DuplicateMeansClash(t, e, e.id);
  }

  lemma ClashWithOthers(t: map<string, Endpoint>, id: string, e: Endpoint)
    ensures Clashes(t[id := e], id, e) <==> Clashes(t, id, e)
  {
    if k :| k in t && k != id && Same(t[k], e) {
      assert t[id := e][k] == t[k];
    }
  }

  /** The guard of the conflict answer: the endpoint is another one than before, and taken. */
  lemma ConflictExactly(t: map<string, Endpoint>, id: string, e: Endpoint)
    requires Sound(t) && id in t && WellFormed(id, e)
    ensures ConflictCheck(t[id := e], t[id], e) == if Clashes(t, id, e) && !Same(t[id], e) then CONFLICT else OK
  {
    KnownType(e.apiType);
    assert WellFormed(id, t[id]);
    ChangedMeansOther(id, t[id], e);
    assert Sound(t[id := e]);
    DuplicateMeansOther(t[id := e], id, e);
    ClashWithOthers(t, id, e);
  }

  /** In a unique table only another endpoint can be taken. */
  lemma ConflictMeansClash(t: map<string, Endpoint>, id: string, e: Endpoint)
    requires Sound(t) && Unique(t) && id in t && WellFormed(id, e)
    ensures ConflictCheck(t[id := e], t[id], e) == (if Clashes(t, id, e) then CONFLICT else OK)
  {
    ConflictExactly(t, id, e);
    if k :| k in t && k != id && Same(t[k], e) {
      assert !Same(t[k], t[id]);
    }
  }

  /**
   * Exactly which updates keep endpoints unique: those that do not ask for an endpoint another API
   * has. One that does is refused with a conflict if it gets as far as that check, and leaves the
   * refused endpoint in the table either way; one that answers OK never does.
   */
  lemma UpdateKeepsExactly(t: map<string, Endpoint>, id: string, req: UpdateRequest)
    requires Sound(t) && Unique(t) && id in t
    ensures var (status, t') := Updated(t, id, req);
      && Sound(t')
      && (Unique(t') <==> !Clashes(t, id, Final(t[id], req)))
      && (status == OK ==> Unique(t'))
      && (status == CONFLICT ==> !Unique(t'))
      && (status in {OK, CONFLICT, BAD_REQUEST})
  {
    var e := Final(t[id], req);
    assert WellFormed(id, t[id]);
    FinalWellFormed(id, t[id], req);
    ReplaceKeepsUnique(t, id, e);
    ConflictMeansClash(t, id, e);
  }

  lemma UpperStays(s: string)
    ensures ToUpper(ToUpper(s)) == ToUpper(s)
  {
  }

  /** A signature does not change when its method and path are stored trimmed and in upper case. */
  lemma StoredSignature(kind: string, verb: string, path: string)
    ensures Signature(kind, ToUpper(TrimSpace(verb)), TrimSpace(path)) == Signature(kind, verb, path)
  {
    var v, p := TrimSpace(verb), TrimSpace(path);
    TrimSpaceTrims(verb);
    TrimSpaceTrims(path);
    UpperStays(v);
    assert TrimSpace(ToUpper(v)) == ToUpper(v) by { if v != "" { TrimmedStays(ToUpper(v)); } }
    assert TrimSpace(p) == p by { if p != "" { TrimmedStays(p); } }
  }

  /** Nor when an absent method or path of a GraphQL API is stored as its default. */
  lemma DefaultSignature(verb: string, path: string)
    requires (verb == "" || (Trimmed(verb) && ToUpper(verb) == verb)) && (path == "" || Trimmed(path))
    ensures GraphQLSignature(if verb == "" then "POST" else verb, if path == "" then "/api/graphql" else path)
         == GraphQLSignature(verb, path)
  {
    TrimmedStays("POST");
    assert ToUpper("POST") == "POST";
    TrimmedStays("/api/graphql");
    if verb != "" {
      TrimmedStays(verb);
    }
    if path != "" {
      TrimmedStays(path);
    }
  }

  /** A created record has the signature of the method and the path that were asked for. */
  lemma CreatedSignature(id: string, req: CreateRequest)
    ensures var e, kind := Requested(id, req), TypeOf(req.apiType);
      e.apiType == kind
      && (kind in {"rest", "graphql"} ==> Signature(kind, e.verb, e.path) == Signature(kind, req.verb, req.path))
  {
    StoredSignature(TypeOf(req.apiType), req.verb, req.path);
    TrimSpaceTrims(req.verb);
    TrimSpaceTrims(req.path);
    UpperStays(TrimSpace(req.verb));
    DefaultSignature(ToUpper(TrimSpace(req.verb)), TrimSpace(req.path));
  }

  /** Moving a REST API onto another one's endpoint is refused, and yet done. */
  lemma RefusedUpdateBreaks(t: map<string, Endpoint>, i: string, j: string)
    requires Sound(t) && Unique(t) && i in t && j in t && i != j
    requires t[i].apiType == t[j].apiType == "rest" && AllowedVerb(ToUpper(TrimSpace(t[j].verb)))
    ensures var req := UpdateRequest(None, Some(t[j].verb), Some(t[j].path), None, true, true);
            var (status, t') := Updated(t, i, req);
      status == CONFLICT && !Unique(t')
  {
    var req := UpdateRequest(None, Some(t[j].verb), Some(t[j].path), None, true, true);
    assert WellFormed(i, t[i]) && WellFormed(j, t[j]);
    var e := Final(t[i], req);
    KnownType(t[i].apiType);
    assert e == Endpoint(i, t[i].apiType, ToUpper(TrimSpace(t[j].verb)), TrimSpace(t[j].path));
    StoredSignature("rest", t[j].verb, t[j].path);
    assert Same(t[j], e);
    assert Clashes(t, i, e);
    FinalWellFormed(i, t[i], req);
    ConflictMeansClash(t, i, e);
    UpdateKeepsExactly(t, i, req);
  }

  datatype Op =
    | Create(id: string, create: CreateRequest)
    | Update(id: string, update: UpdateRequest)
    | Delete(id: string)

  function Handled(t: map<string, Endpoint>, op: Op): (nat, map<string, Endpoint>) {
    match op
    case Create(id, req) => Created(t, id, req)
    case Update(id, req) => Updated(t, id, req)
    case Delete(id) => Deleted(t, id)
  }

  function TableAfter(ops: seq<Op>): map<string, Endpoint> {
    if ops == [] then map[] else Handled(TableAfter(ops[..|ops| - 1]), ops[|ops| - 1]).1
  }

  /** Identifiers are generated, or part of the URL, and never empty. */
  ghost predicate Identified(ops: seq<Op>) {
    forall k :: 0 <= k < |ops| ==> ops[k].id != ""
  }

  lemma {:induction false} TableSound(ops: seq<Op>)
    requires Identified(ops)
    ensures Sound(TableAfter(ops))
  {
    if ops == [] {
    } else {
      var init := ops[..|ops| - 1];
      TableSound(init);
      var t := TableAfter(init);
      match ops[|ops| - 1]
      case Create(id, req) => CreateKeeps(t, id, req);
      case Update(id, req) => if id in t { FinalWellFormed(id, t[id], req); }
      case Delete(id) =>
    }
  }

  /** The operation asks to move an API onto an endpoint that another one has. */
  ghost predicate MovesOnto(t: map<string, Endpoint>, op: Op) {
    op.Update? && op.id in t && Clashes(t, op.id, Final(t[op.id], op.update))
  }

  lemma StepUniqueExactly(t: map<string, Endpoint>, op: Op)
    requires Sound(t) && Unique(t) && op.id != ""
    ensures Unique(Handled(t, op).1) <==> !MovesOnto(t, op)
  {
    match op
    case Create(id, req) => CreateKeeps(t, id, req);
    case Update(id, req) => if id in t { UpdateKeepsExactly(t, id, req); }
    case Delete(id) =>
  }

  /** Endpoints are unique after the run and after every shorter one on the way. */
  ghost predicate UniqueThroughout(ops: seq<Op>) {
    Unique(TableAfter(ops)) && (ops != [] ==> UniqueThroughout(ops[..|ops| - 1]))
  }

  ghost predicate NeverMovesOnto(ops: seq<Op>) {
    ops != [] ==>
      var init, last := ops[..|ops| - 1], ops[|ops| - 1];
      !MovesOnto(TableAfter(init), last) && NeverMovesOnto(init)
  }

  /**
   * Over every run, updates that switch the API type and refused ones included: endpoints are unique
   * at every point of the run exactly when no update asks for an endpoint that another API has.
   */
  lemma {:induction false} EndpointsUniqueExactly(ops: seq<Op>)
    requires Identified(ops)
    ensures UniqueThroughout(ops) <==> NeverMovesOnto(ops)
  {
    if ops == [] {
    } else {
      var init, last := ops[..|ops| - 1], ops[|ops| - 1];
      EndpointsUniqueExactly(init);
      if UniqueThroughout(init) {
        TableSound(init);
        StepUniqueExactly(TableAfter(init), last);
      }
    }
  }

  /** In terms of the answers alone: if no update is refused, endpoints stay unique. */
  lemma {:induction false} EndpointsUnique(ops: seq<Op>)
    requires Identified(ops)
    requires forall k :: 0 <= k < |ops| && ops[k].Update? ==>
               Handled(TableAfter(ops[..k]), ops[k]).0 in {OK, NOT_FOUND}
    ensures Unique(TableAfter(ops))
  {
    if ops == [] {
    } else {
      var init, last := ops[..|ops| - 1], ops[|ops| - 1];
      assert forall k :: 0 <= k < |init| ==> init[..k] == ops[..k];
      EndpointsUnique(init);
      TableSound(init);
      var t := TableAfter(init);
      match last
      case Create(id, req) => CreateKeeps(t, id, req);
      case Update(id, req) => if id in t { UpdateKeepsExactly(t, id, req); }
      case Delete(id) =>
    }
  }
}
