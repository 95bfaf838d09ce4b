/**
 * The API builder's endpoint table: creation, update and deletion of custom REST and GraphQL
 * APIs, with the duplicate check on normalised method-and-path signatures.
 */
module EndpointTable {
  import opened Wrappers
  import opened GoStrings

  /** The fields of a stored API that decide its endpoint. */
  datatype Endpoint = Endpoint(id: string, apiType: string, verb: string, path: string)

  const OK: nat := 200
  const CREATED: nat := 201
  const BAD_REQUEST: nat := 400
  const NOT_FOUND: nat := 404
  const CONFLICT: nat := 409

  function NormalizePath(path: string): string {
    var normalized := "/" + TrimSlashes(TrimSpace(path));
    if normalized == "/api/custom" then "/"
    else if HasPrefix(normalized, "/api/custom/") then
      var trimmed := normalized[|"/api/custom"|..];
      if trimmed == "" then "/" else "/" + TrimSlashes(TrimSpace(trimmed))
    else normalized
  }

  function RestSignature(verb: string, path: string): string {
    ToUpper(TrimSpace(verb)) + " " + NormalizePath(path)
  }

  function GraphQLSignature(verb: string, path: string): string {
    var m := ToUpper(TrimSpace(verb));
    var p := TrimSpace(path);
    (if m == "" then "POST" else m) + " " + NormalizePath(if p == "" then "/api/graphql" else p)
  }

  function TypeOf(apiType: string): string {
    var t := ToLower(TrimSpace(apiType));
    if t == "" then "rest" else t
  }

  function Signature(kind: string, verb: string, path: string): string {
    if kind == "graphql" then GraphQLSignature(verb, path) else RestSignature(verb, path)
  }

  predicate AllowedVerb(verb: string) {
    verb in {"GET", "POST", "PUT", "DELETE", "PATCH"}
  }

  /** An API other than `excludeID` of the same type already has the signature. */
  predicate Duplicates(e: Endpoint, kind: string, signature: string, excludeID: string) {
    && TypeOf(e.apiType) == kind
    && !(excludeID != "" && e.id == excludeID)
    && Signature(kind, e.verb, e.path) == signature
  }

  predicate HasDuplicate(t: map<string, Endpoint>, kind: string, signature: string, excludeID: string) {
    exists k :: k in t && Duplicates(t[k], kind, signature, excludeID)
  }

  /**
   * `policyAccepted`, `graphQLQuery` and `templateAccepted` are the outcomes of the checks on the
   * other fields, in the order they are made: before, and after, the endpoint is looked at.
   */
  datatype CreateRequest = CreateRequest(
    apiType: string, verb: string, path: string,
    policyAccepted: bool, hasGraphQLQuery: bool, templateAccepted: bool)

  function RestCheck(t: map<string, Endpoint>, verb: string, path: string, templateAccepted: bool): nat {
    if verb == "" || path == "" || !AllowedVerb(verb) then BAD_REQUEST
    else if HasDuplicate(t, "rest", Signature("rest", verb, path), "") then CONFLICT
    else if !templateAccepted then BAD_REQUEST
    else CREATED
  }

  function GraphQLCheck(t: map<string, Endpoint>, verb: string, path: string, hasQuery: bool): nat {
    if !hasQuery then BAD_REQUEST
    else if HasDuplicate(t, "graphql", Signature("graphql", verb, path), "") then CONFLICT
    else CREATED
  }

  /** The record a creation request asks for. */
  function Requested(id: string, req: CreateRequest): Endpoint {
    var kind, verb, path := TypeOf(req.apiType), ToUpper(TrimSpace(req.verb)), TrimSpace(req.path);
    if kind == "rest" then Endpoint(id, kind, verb, path)
    else Endpoint(id, kind, if verb == "" then "POST" else verb, if path == "" then "/api/graphql" else path)
  }

  function CreateStatus(t: map<string, Endpoint>, id: string, req: CreateRequest): nat {
    var e := Requested(id, req);
    if (e.apiType != "rest" && e.apiType != "graphql") || !req.policyAccepted then BAD_REQUEST
    else if e.apiType == "rest" then RestCheck(t, e.verb, e.path, req.templateAccepted)
    else GraphQLCheck(t, e.verb, e.path, req.hasGraphQLQuery)
  }

  function Created(t: map<string, Endpoint>, id: string, req: CreateRequest): (nat, map<string, Endpoint>) {
    var status := CreateStatus(t, id, req);
    (status, if status == CREATED then t[id := Requested(id, req)] else t)
  }

  /** Absent fields are None. The SQL checks come after the endpoint fields have been written. */
  datatype UpdateRequest = UpdateRequest(
    apiType: Option<string>, verb: Option<string>, path: Option<string>, endpoint: Option<string>,
    fieldsAccepted: bool, sourceAccepted: bool)

  predicate Given(v: Option<string>) {
    v.Some? && TrimSpace(v.value) != ""
  }

  predicate BadType(req: UpdateRequest) {
    && Given(req.apiType)
    && ToLower(TrimSpace(req.apiType.value)) != "rest"
    && ToLower(TrimSpace(req.apiType.value)) != "graphql"
  }

  predicate BadVerb(req: UpdateRequest) {
    Given(req.verb) && !AllowedVerb(ToUpper(TrimSpace(req.verb.value)))
  }

  function WithType(e: Endpoint, req: UpdateRequest): Endpoint {
    if Given(req.apiType) then e.(apiType := ToLower(TrimSpace(req.apiType.value))) else e
  }

  function WithVerb(e: Endpoint, req: UpdateRequest): Endpoint {
    if Given(req.verb) then e.(verb := ToUpper(TrimSpace(req.verb.value))) else e
  }

  function WithPath(e: Endpoint, path: Option<string>): Endpoint {
    if Given(path) then e.(path := TrimSpace(path.value)) else e
  }

  function Typed(e: Endpoint): Endpoint {
    if TrimSpace(e.apiType) == "" then e.(apiType := "rest") else e
  }

  /** The stored record after the endpoint fields of the request have been written into it. */
  function Edited(e: Endpoint, req: UpdateRequest): Endpoint {
    if BadType(req) then Typed(e)
    else if BadVerb(req) then WithType(Typed(e), req)
    else WithPath(WithPath(WithVerb(WithType(Typed(e), req), req), req.path), req.endpoint)
  }

  /** The type defaults that follow, once no check has failed. */
  function Completed(e: Endpoint): Endpoint {
    if TypeOf(e.apiType) == "graphql" then
      e.(path := if TrimSpace(e.path) == "" then "/api/graphql" else e.path,
         verb := if TrimSpace(e.verb) == "" then "POST" else e.verb)
    else e
  }

  predicate EndpointChanged(before: Endpoint, after: Endpoint) {
    var kind := TypeOf(after.apiType);
    TypeOf(before.apiType) != kind
    || Signature(kind, after.verb, after.path) != Signature(kind, before.verb, before.path)
  }

  /** The duplicate check of an update, on the table that already holds the edited record `e`. */
  function ConflictCheck(t: map<string, Endpoint>, before: Endpoint, e: Endpoint): nat {
    var kind := TypeOf(e.apiType);
    if && (kind == "graphql" || (kind == "rest" && TrimSpace(e.verb) != ""))
       && TrimSpace(e.path) != ""
       && EndpointChanged(before, e)
       && HasDuplicate(t, kind, Signature(kind, e.verb, e.path), e.id)
    then CONFLICT else OK
  }

  predicate EditAccepted(req: UpdateRequest) {
    !BadType(req) && !BadVerb(req) && req.fieldsAccepted
  }

  /** The record an update leaves in the table. */
  function Final(e: Endpoint, req: UpdateRequest): Endpoint {
    if EditAccepted(req) then Completed(Edited(e, req)) else Edited(e, req)
  }

  function UpdateStatus(t: map<string, Endpoint>, id: string, req: UpdateRequest): nat
    requires id in t
  {
    var e := Final(t[id], req);
    if !EditAccepted(req) then BAD_REQUEST
    else if TypeOf(e.apiType) != "graphql" && !req.sourceAccepted then BAD_REQUEST
    else ConflictCheck(t[id := e], t[id], e)
  }

  /** The record is written into the table as it is edited, whatever the answer turns out to be. */
  function Updated(t: map<string, Endpoint>, id: string, req: UpdateRequest): (nat, map<string, Endpoint>) {
    if id !in t then (NOT_FOUND, t) else (UpdateStatus(t, id, req), t[id := Final(t[id], req)])
  }

  function Deleted(t: map<string, Endpoint>, id: string): (nat, map<string, Endpoint>) {
    if id in t then (OK, t - {id}) else (NOT_FOUND, t)
  }

  /** The stored record, which handlers edit through a shared reference. */
  class CustomAPI {
    var id: string
    var apiType: string
    var verb: string
    var path: string

    constructor (id: string, apiType: string, verb: string, path: string)
      ensures View() == Endpoint(id, apiType, verb, path)
    {
      this.id, this.apiType, this.verb, this.path := id, apiType, verb, path;
    }

    function View(): Endpoint
      reads this
    {
      Endpoint(id, apiType, verb, path)
    }
  }

  class APIBuilder {
    var customAPIs: map<string, CustomAPI>
    /** What the stored records hold. */
    ghost var table: map<string, Endpoint>

    /** Every record holds its row of the table, and no two identifiers share a record. */
    ghost predicate Valid()
      reads this, customAPIs.Values
    {
      && table.Keys == customAPIs.Keys
      && (forall k :: k in customAPIs ==> customAPIs[k].View() == table[k])
      && (forall i, j :: i in customAPIs && j in customAPIs && i != j ==> customAPIs[i] != customAPIs[j])
    }

    constructor ()
      ensures Valid() && table == map[]
    {
      customAPIs := map[];
      table := map[];
    }

    method FindDuplicate(kind: string, verb: string, path: string, excludeID: string) returns (found: bool)
      requires Valid()
      ensures found == old(HasDuplicate(table, kind, Signature(kind, verb, path), excludeID))
    {
      var target := Signature(kind, verb, path);
      var todo := customAPIs.Keys;
      while todo != {}
        invariant todo <= customAPIs.Keys
        invariant forall k :: k in customAPIs && k !in todo ==>
                    !Duplicates(table[k], kind, target, excludeID)
        decreases todo
      {
        var k :| k in todo;
        todo := todo - {k};
        var candidate := customAPIs[k];
        if && TypeOf(candidate.apiType) == kind
           && !(excludeID != "" && candidate.id == excludeID)
           && Signature(kind, candidate.verb, candidate.path) == target {
          assert Duplicates(table[k], kind, target, excludeID);
          return true;
        }
      }
      return false;
    }

    method CheckRest(verb: string, path: string, templateAccepted: bool) returns (status: nat)
      requires Valid()
      ensures Valid()
      ensures status == old(RestCheck(table, verb, path, templateAccepted))
    {
      if verb == "" || path == "" {
        return BAD_REQUEST;
      }
      if !AllowedVerb(verb) {
        return BAD_REQUEST;
      }
      var found := FindDuplicate("rest", verb, path, "");
      if found {
        return CONFLICT;
      }
      return if templateAccepted then CREATED else BAD_REQUEST;
    }

    method CheckGraphQL(verb: string, path: string, hasQuery: bool) returns (status: nat)
      requires Valid()
      ensures Valid()
      ensures status == old(GraphQLCheck(table, verb, path, hasQuery))
    {
      if !hasQuery {
        return BAD_REQUEST;
      }
      var found := FindDuplicate("graphql", verb, path, "");
      return if found then CONFLICT else CREATED;
    }

    method CheckCreate(id: string, req: CreateRequest) returns (status: nat, e: Endpoint)
      requires Valid()
      ensures Valid()
      ensures status == old(CreateStatus(table, id, req))
      ensures e == Requested(id, req)
    {
      var kind := TypeOf(req.apiType);
      var verb := ToUpper(TrimSpace(req.verb));
      var path := TrimSpace(req.path);
      if kind != "rest" {
        if verb == "" {
          verb := "POST";
        }
        if path == "" {
          path := "/api/graphql";
        }
      }
      e := Endpoint(id, kind, verb, path);
      if kind != "rest" && kind != "graphql" {
        return BAD_REQUEST, e;
      }
      if !req.policyAccepted {
        return BAD_REQUEST, e;
      }
      if kind == "rest" {
        status := CheckRest(verb, path, req.templateAccepted);
      } else {
        status := CheckGraphQL(verb, path, req.hasGraphQLQuery);
      }
    }

    method Insert(e: Endpoint)
      requires Valid()
      modifies this
      ensures Valid()
      ensures table == old(table)[e.id := e]
    {
      var api := new CustomAPI(e.id, e.apiType, e.verb, e.path);
      customAPIs := customAPIs[e.id := api];
      table := table[e.id := e];
    }

    method CreateAPI(id: string, req: CreateRequest) returns (status: nat)
      requires Valid()
      modifies this
      ensures Valid()
      ensures (status, table) == old(Created(table, id, req))
    {
      var e;
      status, e := CheckCreate(id, req);
      if status == CREATED {
        Insert(e);
      }
    }

    method DeleteAPI(id: string) returns (status: nat)
      requires Valid()
      modifies this
      ensures Valid()
      ensures (status, table) == old(Deleted(table, id))
    {
      if id !in customAPIs {
        return NOT_FOUND;
      }
      customAPIs := customAPIs - {id};
      table := table - {id};
      return OK;
    }

    /** Writes the type of a request into the record, unless it is a bad one. */
    method EditType(api: CustomAPI, req: UpdateRequest) returns (accepted: bool)
      modifies api
      ensures accepted == !BadType(req)
      ensures api.View() == if accepted then WithType(old(Typed(api.View())), req) else old(Typed(api.View()))
    {
      if TrimSpace(api.apiType) == "" {
        api.apiType := "rest";
      }
      if req.apiType.Some? {
        var vt := ToLower(TrimSpace(req.apiType.value));
        assert vt == "" <==> TrimSpace(req.apiType.value) == "";
        if vt != "" && vt != "rest" && vt != "graphql" {
          return false;
        }
        if vt != "" {
          api.apiType := vt;
        }
      }
      return true;
    }

    method EditVerb(api: CustomAPI, req: UpdateRequest) returns (accepted: bool)
      modifies api
      ensures accepted == !BadVerb(req)
      ensures api.View() == if accepted then WithVerb(old(api.View()), req) else old(api.View())
    {
      if req.verb.Some? && TrimSpace(req.verb.value) != "" {
        var verb := ToUpper(TrimSpace(req.verb.value));
        if !AllowedVerb(verb) {
          return false;
        }
        api.verb := verb;
      }
      return true;
    }

    method EditPath(api: CustomAPI, path: Option<string>)
      modifies api
      ensures api.View() == WithPath(old(api.View()), path)
    {
      if path.Some? && TrimSpace(path.value) != "" {
        api.path := TrimSpace(path.value);
      }
    }

    /** Writes the endpoint fields of a request into the record; stops at the first bad one. */
    method EditRecord(api: CustomAPI, req: UpdateRequest) returns (accepted: bool)
      modifies api
      ensures api.View() == Edited(old(api.View()), req)
      ensures accepted == !(BadType(req) || BadVerb(req))
    {
      accepted := EditType(api, req);
      if accepted {
        accepted := EditVerb(api, req);
        if accepted {
          EditPath(api, req.path);
          EditPath(api, req.endpoint);
        }
      }
    }

    /** Fills in the defaults a GraphQL record needs. */
    method CompleteRecord(api: CustomAPI)
      modifies api
      ensures api.View() == Completed(old(api.View()))
    {
      if TypeOf(api.apiType) == "graphql" {
        if TrimSpace(api.path) == "" {
          api.path := "/api/graphql";
        }
        if TrimSpace(api.verb) == "" {
          api.verb := "POST";
        }
      }
    }

    /** All an update writes into a record; true if every field was acceptable. */
    method UpdateRecord(api: CustomAPI, req: UpdateRequest) returns (accepted: bool)
      modifies api
      ensures accepted == EditAccepted(req)
      ensures api.View() == Final(old(api.View()), req)
    {
      accepted := EditRecord(api, req);
      accepted := accepted && req.fieldsAccepted;
      if accepted {
        CompleteRecord(api);
      }
    }

    method EditStored(id: string, req: UpdateRequest) returns (accepted: bool)
      requires Valid() && id in customAPIs
      modifies this`table, customAPIs[id]
      ensures Valid()
      ensures customAPIs == old(customAPIs) && table == old(table[id := Final(table[id], req)])
      ensures accepted == EditAccepted(req)
    {
      var api := customAPIs[id];
      ghost var before := table[id];
      assert api.View() == before;
      accepted := UpdateRecord(api, req);
      assert api.View() == Final(before, req);
      table := table[id := api.View()];
    }

    method CheckConflict(before: Endpoint, e: Endpoint) returns (status: nat)
      requires Valid()
      ensures Valid()
      ensures status == old(ConflictCheck(table, before, e))
    {
      var kind := TypeOf(e.apiType);
      var changed := EndpointChanged(before, e);
      if kind == "rest" && TrimSpace(e.verb) != "" && TrimSpace(e.path) != "" && changed {
        var found := FindDuplicate("rest", e.verb, e.path, e.id);
        if found {
          return CONFLICT;
        }
      }
      if kind == "graphql" && TrimSpace(e.path) != "" && changed {
        var found := FindDuplicate("graphql", e.verb, e.path, e.id);
        if found {
          return CONFLICT;
        }
      }
      return OK;
    }

    method UpdateAPI(id: string, req: UpdateRequest) returns (status: nat)
      requires Valid()
      modifies this`table, customAPIs.Values
      ensures Valid()
      ensures (status, table) == old(Updated(table, id, req))
    {
      if id !in customAPIs {
        return NOT_FOUND;
      }
      var api := customAPIs[id];
      var before := api.View();
      var accepted := EditStored(id, req);
      if !accepted {
        return BAD_REQUEST;
      }
      if TypeOf(api.apiType) != "graphql" && !req.sourceAccepted {
        return BAD_REQUEST;
      }
      status := CheckConflict(before, api.View());
    }
  }
}
