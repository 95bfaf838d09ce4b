/**
 * What an endpoint is, said on methods and paths: when two signatures are equal, and which requests
 * the API builder grants.
 */
module EndpointAnswers {
  import opened Wrappers
  import opened GoStrings
  import opened EndpointTable
  import opened EndpointRuns

  predicate UnderPrefix(normalized: string) {
    normalized == "/api/custom" || HasPrefix(normalized, "/api/custom/")
  }

  /** What is left of a path once white space and then slashes around it are gone. */
  lemma CoreOf(a: string, core: string, b: string, s1: string, p: string, s2: string)
    requires AllSpaces(a) && AllSpaces(b) && AllSlashes(s1) && AllSlashes(s2) && Stripped(p)
    requires core == s1 + p + s2 && (core == "" || Trimmed(core))
    ensures TrimSlashes(TrimSpace(a + core + b)) == p
  {
    TrimSpaceExactly(a, core, b);
    TrimSlashesExactly(s1, p, s2);
  }

  lemma SlashedIsTrimmed(s1: string, p: string, s2: string)
    requires AllSlashes(s1) && AllSlashes(s2) && (p == "" || Trimmed(p))
    ensures var core := s1 + p + s2; core == "" || Trimmed(core)
  {
    var core := s1 + p + s2;
    if core != "" {
      assert core[0] == if s1 != "" then s1[0] else if p != "" then p[0] else s2[0];
      assert core[|core| - 1] == if s2 != "" then s2[|s2| - 1] else if p != "" then p[|p| - 1] else s1[|s1| - 1];
    }
  }

  /** White space and slashes around a path do not matter. */
  lemma PathDecorationIgnored(a: string, s1: string, p: string, s2: string, b: string)
    requires AllSpaces(a) && AllSpaces(b) && AllSlashes(s1) && AllSlashes(s2)
    requires Stripped(p) && (p == "" || Trimmed(p))
    requires !UnderPrefix("/" + p)
    ensures NormalizePath(a + (s1 + p + s2) + b) == "/" + p
  {
    SlashedIsTrimmed(s1, p, s2);
    CoreOf(a, s1 + p + s2, b, s1, p, s2);
  }

  lemma AfterPrefix(path: string, rest: string)
    requires rest != "" && rest[0] == '/'
    requires "/" + TrimSlashes(TrimSpace(path)) == "/api/custom" + rest
    ensures NormalizePath(path) == "/" + TrimSlashes(TrimSpace(rest))
  {
    var n := "/api/custom" + rest;
    assert n[|"/api/custom"|] == '/' && n[|"/api/custom"|..] == rest;
    assert n[..|"/api/custom/"|] == "/api/custom/";
  }

  lemma UnderRuntimePrefix(a: string, s1: string, s: string, p: string, s2: string, b: string)
    requires AllSpaces(a) && AllSpaces(b) && AllSlashes(s1) && AllSlashes(s) && AllSlashes(s2)
    requires s != "" && Stripped(p) && Trimmed(p)
    ensures NormalizePath(a + (s1 + ("api/custom" + s + p) + s2) + b) == "/" + p
  {
    var q := "api/custom" + s + p;
    assert q[0] == 'a' && q[|q| - 1] == p[|p| - 1];
    SlashedIsTrimmed(s1, q, s2);
    CoreOf(a, s1 + q + s2, b, s1, q, s2);
    assert "/" + q == "/api/custom" + (s + p);
    AfterPrefix(a + (s1 + q + s2) + b, s + p);
    SlashedIsTrimmed(s, p, "");
    assert s + p + "" == s + p && "" + (s + p) + "" == s + p;
    CoreOf("", s + p, "", s, p, "");
  }

  /** Nor does the runtime prefix before it, which alone stands for the root. */
  lemma RuntimePrefixIgnored(a: string, s1: string, s: string, p: string, s2: string, b: string)
    requires AllSpaces(a) && AllSpaces(b) && AllSlashes(s1) && AllSlashes(s) && AllSlashes(s2)
    requires s != "" && Stripped(p) && Trimmed(p)
    ensures NormalizePath(a + (s1 + ("api/custom" + s + p) + s2) + b) == "/" + p
    ensures NormalizePath(a + (s1 + "api/custom" + s2) + b) == "/"
  {
    UnderRuntimePrefix(a, s1, s, p, s2, b);
    SlashedIsTrimmed(s1, "api/custom", s2);
    CoreOf(a, s1 + "api/custom" + s2, b, s1, "api/custom", s2);
  }

  /** The method an API answers to; a GraphQL API without one answers to POST. */
  function Method(kind: string, verb: string): string {
    var m := ToUpper(TrimSpace(verb));
    if kind == "graphql" && m == "" then "POST" else m
  }

  /** The path it is found under; a GraphQL API without one is found under its usual path. */
  function Location(kind: string, path: string): string {
    if kind == "graphql" && TrimSpace(path) == "" then "/api/graphql" else NormalizePath(path)
  }

  /** The second method and path run into the first: a blank in the method hides where it ends. */
  ghost predicate RunsInto(m1: string, p1: string, m2: string, p2: string) {
    exists x :: m1 == m2 + " " + x && p2 == x + " " + p1
  }

  lemma SplitEqually(a: string, b: string, c: string, d: string)
    requires a + b == c + d && |a| == |c|
    ensures a == c && b == d
  {
    assert a == (a + b)[..|a|] && c == (c + d)[..|a|];
    assert b == (a + b)[|a|..] && d == (c + d)[|a|..];
  }

  lemma LongerRunsInto(m1: string, p1: string, m2: string, p2: string)
    requires m1 + " " + p1 == m2 + " " + p2 && |m1| > |m2|
    ensures RunsInto(m1, p1, m2, p2)
  {
    var n := |m2|;
    var x := m1[n + 1..];
    assert m1 == m1[..n] + [m1[n]] + x;
    assert m1 + " " + p1 == (m1[..n] + [m1[n]]) + (x + " " + p1);
    assert m2 + " " + p2 == (m2 + " ") + p2;
    SplitEqually(m1[..n] + [m1[n]], x + " " + p1, m2 + " ", p2);
    assert m1 == m2 + " " + x;
  }

  lemma JoinedEqually(m1: string, p1: string, m2: string, p2: string)
    ensures m1 + " " + p1 == m2 + " " + p2
       <==> (m1 == m2 && p1 == p2) || RunsInto(m1, p1, m2, p2) || RunsInto(m2, p2, m1, p1)
  {
    if m1 + " " + p1 == m2 + " " + p2 {
      if |m1| == |m2| {
        assert m1 + (" " + p1) == m1 + " " + p1 && m2 + (" " + p2) == m2 + " " + p2;
        SplitEqually(m1, " " + p1, m2, " " + p2);
        assert (" " + p1)[1..] == (" " + p2)[1..];
      } else if |m1| > |m2| {
        LongerRunsInto(m1, p1, m2, p2);
      } else {
        LongerRunsInto(m2, p2, m1, p1);
      }
    }
    if x :| m1 == m2 + " " + x && p2 == x + " " + p1 {
      assert m2 + " " + x + " " + p1 == m2 + " " + (x + " " + p1);
    }
    if x :| m2 == m1 + " " + x && p1 == x + " " + p2 {
      assert m1 + " " + x + " " + p2 == m1 + " " + (x + " " + p2);
    }
  }

  lemma UsualLocation()
    ensures NormalizePath("/api/graphql") == "/api/graphql"
  {
    assert "/api/graphql"[5] != "/api/custom/"[5];
    PathDecorationIgnored("", "/", "api/graphql", "", "");
    assert "" + ("/" + "api/graphql" + "") + "" == "/api/graphql";
  }

  lemma NormalizeTrimmed(path: string)
    ensures NormalizePath(TrimSpace(path)) == NormalizePath(path)
  {
    TrimSpaceTrims(path);
    if TrimSpace(path) != "" {
      TrimmedStays(TrimSpace(path));
    }
  }

  lemma SignatureIs(kind: string, verb: string, path: string)
    ensures Signature(kind, verb, path) == Method(kind, verb) + " " + Location(kind, path)
  {
    UsualLocation();
    NormalizeTrimmed(path);
  }

  /** Any two signatures are equal exactly for the same method and path, or if a method runs into a path. */
  lemma SignaturesEqualExactly(kind: string, verb1: string, path1: string, verb2: string, path2: string)
    ensures var m1, p1 := Method(kind, verb1), Location(kind, path1);
            var m2, p2 := Method(kind, verb2), Location(kind, path2);
      (Signature(kind, verb1, path1) == Signature(kind, verb2, path2))
        == ((m1 == m2 && p1 == p2) || RunsInto(m1, p1, m2, p2) || RunsInto(m2, p2, m1, p1))
  {
    SignatureIs(kind, verb1, path1);
    SignatureIs(kind, verb2, path2);
    JoinedEqually(Method(kind, verb1), Location(kind, path1), Method(kind, verb2), Location(kind, path2));
  }

  predicate Plain(m: string) {
    ' ' !in m
  }

  lemma PlainRunsIntoNothing(m1: string, p1: string, m2: string, p2: string)
    requires Plain(m1)
    ensures !RunsInto(m1, p1, m2, p2)
  {
    forall x ensures m1 != m2 + " " + x {
      var s := m2 + " " + x;
      assert s[|m2|] == ' ';
    }
  }

  /** Signatures of plain methods are equal exactly if the methods and the paths are. */
  lemma SignatureIsMethodAndPath(kind: string, verb1: string, path1: string, verb2: string, path2: string)
    requires Plain(Method(kind, verb1)) && Plain(Method(kind, verb2))
    ensures Signature(kind, verb1, path1) == Signature(kind, verb2, path2)
       <==> Method(kind, verb1) == Method(kind, verb2) && Location(kind, path1) == Location(kind, path2)
  {
    SignaturesEqualExactly(kind, verb1, path1, verb2, path2);
    PlainRunsIntoNothing(Method(kind, verb1), Location(kind, path1), Method(kind, verb2), Location(kind, path2));
    PlainRunsIntoNothing(Method(kind, verb2), Location(kind, path2), Method(kind, verb1), Location(kind, path1));
  }

  lemma MethodOf(verb: string)
    requires Trimmed(verb) && ToUpper(verb) == verb
    ensures Method("graphql", verb) == verb
  {
    TrimmedStays(verb);
  }

  lemma LocationOf(path: string)
    requires Trimmed(path) && Stripped(path) && !UnderPrefix("/" + path)
    ensures Location("graphql", path) == "/" + path
  {
    TrimmedStays(path);
    PathDecorationIgnored("", "", path, "", "");
    assert "" + ("" + path + "") + "" == path;
  }

  /** Methods of GraphQL APIs are not checked, and two different endpoints can have one signature. */
  lemma BlankMethodCollides()
    ensures Signature("graphql", "A /B", "p") == Signature("graphql", "A", "B /p")
    ensures Method("graphql", "A /B") != Method("graphql", "A")
  {
    MethodOf("A /B");
    MethodOf("A");
    LocationOf("p");
    LocationOf("B /p");
    SignatureIs("graphql", "A /B", "p");
    SignatureIs("graphql", "A", "B /p");
    assert "A /B" + " " + "/p" == "A" + " " + "/B /p";
  }

  /** An API of the type other than `id` is stored with that method and path. */
  ghost predicate Occupied(t: map<string, Endpoint>, id: string, kind: string, verb: string, path: string) {
    exists k :: k in t && k != id && t[k].apiType == kind
                && Method(kind, t[k].verb) == Method(kind, verb) && Location(kind, t[k].path) == Location(kind, path)
  }

  /** The methods stored for APIs of the type are plain. */
  ghost predicate PlainMethods(t: map<string, Endpoint>, kind: string) {
    forall k :: k in t && t[k].apiType == kind ==> Plain(Method(kind, t[k].verb))
  }

  lemma ClashMeansOccupied(t: map<string, Endpoint>, id: string, e: Endpoint)
    requires PlainMethods(t, e.apiType) && Plain(Method(e.apiType, e.verb))
    ensures Clashes(t, id, e) <==> Occupied(t, id, e.apiType, e.verb, e.path)
  {
    forall k | k in t && t[k].apiType == e.apiType
      ensures Same(t[k], e) <==> && Method(e.apiType, t[k].verb) == Method(e.apiType, e.verb)
                                 && Location(e.apiType, t[k].path) == Location(e.apiType, e.path)
    {
      SignatureIsMethodAndPath(e.apiType, t[k].verb, t[k].path, e.verb, e.path);
    }
  }

  function KindOf(apiType: string): string {
    var kind := ToLower(TrimSpace(apiType));
    if kind == "" then "rest" else kind
  }

  lemma UpperTwice(s: string)
    ensures ToUpper(ToUpper(s)) == ToUpper(s)
  {
  }

  lemma StoredMethod(kind: string, verb: string)
    ensures var m := ToUpper(TrimSpace(verb));
      Method(kind, if kind == "graphql" && m == "" then "POST" else m) == Method(kind, verb)
  {
    TrimSpaceTrims(verb);
    UpperTwice(TrimSpace(verb));
    TrimmedStays("POST");
    assert ToUpper("POST") == "POST";
    if TrimSpace(verb) != "" {
      TrimmedStays(ToUpper(TrimSpace(verb)));
    }
  }

  lemma StoredLocation(kind: string, path: string)
    ensures var p := TrimSpace(path);
      Location(kind, if kind == "graphql" && p == "" then "/api/graphql" else p) == Location(kind, path)
  {
    NormalizeTrimmed(path);
    UsualLocation();
    TrimmedStays("/api/graphql");
    TrimSpaceTrims(path);
    if TrimSpace(path) != "" {
      TrimmedStays(TrimSpace(path));
    }
  }

  lemma RequestedEndpoint(id: string, req: CreateRequest)
    ensures var e, kind := Requested(id, req), KindOf(req.apiType);
      && e.id == id && e.apiType == kind
      && (kind in {"rest", "graphql"} ==>
            Method(kind, e.verb) == Method(kind, req.verb) && Location(kind, e.path) == Location(kind, req.path))
  {
    StoredMethod(KindOf(req.apiType), req.verb);
    StoredLocation(KindOf(req.apiType), req.path);
  }

  lemma TakenMeansOccupied(t: map<string, Endpoint>, e: Endpoint)
    requires Sound(t) && Known(e.apiType) && PlainMethods(t, e.apiType) && Plain(Method(e.apiType, e.verb))
    ensures HasDuplicate(t, e.apiType, Signature(e.apiType, e.verb, e.path), "")
       <==> Occupied(t, "", e.apiType, e.verb, e.path)
  {
    DuplicateMeansClash(t, e, "");
    ClashMeansOccupied(t, "", e);
    assert "" !in t;
  }

  /**
   * How a creation is answered: with a conflict exactly if its method and path are occupied by an API
   * of its type, and otherwise granted if everything that is asked for is in order.
   */
  lemma CreateAnswers(t: map<string, Endpoint>, id: string, req: CreateRequest)
    requires Sound(t) && PlainMethods(t, KindOf(req.apiType)) && Plain(Method(KindOf(req.apiType), req.verb))
    ensures var kind, m := KindOf(req.apiType), Method(KindOf(req.apiType), req.verb);
      CreateStatus(t, id, req)
        == if kind !in {"rest", "graphql"} || !req.policyAccepted then 400
           else if kind == "rest" && m !in {"GET", "POST", "PUT", "DELETE", "PATCH"} then 400
           else if kind == "rest" && TrimSpace(req.path) == "" then 400
           else if kind == "graphql" && !req.hasGraphQLQuery then 400
           else if Occupied(t, "", kind, req.verb, req.path) then 409
           else if kind == "rest" && !req.templateAccepted then 400
           else 201
  {
    var e, kind := Requested(id, req), KindOf(req.apiType);
    RequestedEndpoint(id, req);
    if kind in {"rest", "graphql"} {
      TakenMeansOccupied(t, e);
    }
  }

  /** A granted creation adds the one row that was asked for, and any other changes nothing. */
  lemma CreateStores(t: map<string, Endpoint>, id: string, req: CreateRequest)
    ensures var (status, t') := Created(t, id, req);
      if status != 201 then t' == t
      else
        var kind := KindOf(req.apiType);
        && id in t' && t' == t[id := t'[id]]
        && t'[id].id == id && t'[id].apiType == kind
        && Method(kind, t'[id].verb) == Method(kind, req.verb)
        && Location(kind, t'[id].path) == Location(kind, req.path)
  {
    RequestedEndpoint(id, req);
  }

  predicate Present(v: Option<string>) {
    v.Some? && TrimSpace(v.value) != ""
  }

  /** A field of the update replaces the stored one, unless it is missing or blank. */
  function Replaced(before: string, v: Option<string>, stored: string -> string): string {
    if Present(v) then stored(TrimSpace(v.value)) else before
  }

  predicate TypeInOrder(req: UpdateRequest) {
    Present(req.apiType) ==> ToLower(TrimSpace(req.apiType.value)) in {"rest", "graphql"}
  }

  predicate MethodInOrder(req: UpdateRequest) {
    Present(req.verb) ==> ToUpper(TrimSpace(req.verb.value)) in {"GET", "POST", "PUT", "DELETE", "PATCH"}
  }

  /**
   * What an update leaves in the table: each given field, a given endpoint before a given path; but
   * nothing after a bad type, and only the type after a bad method.
   */
  lemma UpdateWrites(id: string, e: Endpoint, req: UpdateRequest)
    requires WellFormed(id, e)
    ensures var kind := Replaced(e.apiType, req.apiType, ToLower);
      Final(e, req)
        == if !TypeInOrder(req) then e
           else if !MethodInOrder(req) then e.(apiType := kind)
           else Endpoint(id, kind, Replaced(e.verb, req.verb, ToUpper),
                         Replaced(Replaced(e.path, req.path, (s: string) => s), req.endpoint, (s: string) => s))
  {
    KnownType(e.apiType);
    EditedWellFormed(id, e, req);
  }

  /**
   * How an update is answered, by what it leaves in the table; a clash that was there before and that
   * it does not touch is not held against it.
   */
  lemma UpdateAnswers(t: map<string, Endpoint>, id: string, req: UpdateRequest)
    requires Sound(t)
    ensures var (status, t') := Updated(t, id, req);
      if id !in t then status == 404 && t' == t
      else
        var e := t'[id];
        && t' == t[id := e]
        && status == if !TypeInOrder(req) || !MethodInOrder(req) || !req.fieldsAccepted
                        || (e.apiType == "rest" && !req.sourceAccepted) then 400
                     else if Clashes(t, id, e) && !Same(t[id], e) then 409
                     else 200
  {
    if id in t {
      var e := Final(t[id], req);
      FinalWellFormed(id, t[id], req);
      KnownType(e.apiType);
      ConflictExactly(t, id, e);
    }
  }

  /** A deletion takes away the one row. */
  lemma DeleteTakesOne(t: map<string, Endpoint>, id: string)
    ensures var (status, t') := Deleted(t, id);
      && status == (if id in t then 200 else 404)
      && id !in t'
      && forall k :: k != id ==> (k in t' <==> k in t) && (k in t ==> t'[k] == t[k])
  {
  }

  /** While a REST API is there nobody can create its endpoint, and once it is deleted anybody can. */
  lemma DeleteFrees(t: map<string, Endpoint>, id: string, another: string)
    requires Sound(t) && Unique(t) && PlainMethods(t, "rest")
    requires id in t && t[id].apiType == "rest"
    requires Method("rest", t[id].verb) in {"GET", "POST", "PUT", "DELETE", "PATCH"}
    ensures var req := CreateRequest("rest", t[id].verb, t[id].path, true, true, true);
      CreateStatus(t, another, req) == 409 && CreateStatus(Deleted(t, id).1, another, req) == 201
  {
    var e := t[id];
    var req := CreateRequest("rest", e.verb, e.path, true, true, true);
    var t' := Deleted(t, id).1;
    KnownType("rest");
    assert WellFormed(id, e);
    CreateAnswers(t, another, req);
    assert Occupied(t, "", "rest", e.verb, e.path);
    CreateAnswers(t', another, req);
    forall k | k in t' && t'[k].apiType == "rest"
      ensures !(Method("rest", t'[k].verb) == Method("rest", e.verb)
                && Location("rest", t'[k].path) == Location("rest", e.path))
    {
      SignatureIsMethodAndPath("rest", t[k].verb, t[k].path, e.verb, e.path);
      assert !Same(t[k], t[id]);
    }
  }

  /** No API of the table has the method and path of another one of its type. */
  ghost predicate Apart(t: map<string, Endpoint>) {
    forall k :: k in t ==> !Occupied(t, k, t[k].apiType, t[k].verb, t[k].path)
  }

  /** Unique tables are those in which no two APIs of one type have the same method and path. */
  lemma UniqueMeansApart(t: map<string, Endpoint>)
    requires PlainMethods(t, "rest") && PlainMethods(t, "graphql") && Sound(t)
    ensures Unique(t) <==> Apart(t)
  {
    forall k | k in t ensures Clashes(t, k, t[k]) <==> Occupied(t, k, t[k].apiType, t[k].verb, t[k].path) {
      assert WellFormed(k, t[k]);
      ClashMeansOccupied(t, k, t[k]);
    }
    if !Unique(t) {
      var i, j :| i in t && j in t && i != j && Same(t[i], t[j]);
      assert Clashes(t, j, t[j]);
    }
  }

  /** Every stored method is plain. */
  ghost predicate AllPlain(t: map<string, Endpoint>) {
    forall k :: k in t ==> Plain(ToUpper(TrimSpace(t[k].verb)))
  }

  lemma StoredPlain(verb: string)
    requires Plain(ToUpper(TrimSpace(verb)))
    ensures Plain(ToUpper(TrimSpace(ToUpper(TrimSpace(verb)))))
  {
    StoredMethod("rest", verb);
  }

  lemma UpdatePlain(id: string, e: Endpoint, req: UpdateRequest)
    requires WellFormed(id, e) && Plain(ToUpper(TrimSpace(e.verb)))
    ensures Plain(ToUpper(TrimSpace(Final(e, req).verb)))
  {
    UpdateWrites(id, e, req);
    if Present(req.verb) && MethodInOrder(req) {
      StoredPlain(req.verb.value);
    }
  }

  lemma CreatePlain(id: string, req: CreateRequest)
    requires Plain(ToUpper(TrimSpace(req.verb)))
    ensures Plain(ToUpper(TrimSpace(Requested(id, req).verb)))
  {
    StoredPlain(req.verb);
    TrimmedStays("POST");
  }

  /** Updates only accept plain methods, so all stored ones are if no creation brings in another. */
  lemma {:induction false} PlainOverRuns(ops: seq<Op>)
    requires Identified(ops)
    requires forall k :: 0 <= k < |ops| && ops[k].Create? ==> Plain(ToUpper(TrimSpace(ops[k].create.verb)))
    ensures AllPlain(TableAfter(ops))
  {
    if ops == [] {
    } else {
      var init := ops[..|ops| - 1];
      PlainOverRuns(init);
      TableSound(init);
      var t := TableAfter(init);
      match ops[|ops| - 1]
      case Create(id, req) => CreatePlain(id, req);
      case Update(id, req) => if id in t { UpdatePlain(id, t[id], req); }
      case Delete(id) =>
    }
  }

  /**
   * Over every run that creates APIs with plain methods, and in which no update asks for an endpoint
   * that another API has, no two APIs of one type ever have the same method and path.
   */
  lemma EndpointsApart(ops: seq<Op>)
    requires Identified(ops) && NeverMovesOnto(ops)
    requires forall k :: 0 <= k < |ops| && ops[k].Create? ==> Plain(ToUpper(TrimSpace(ops[k].create.verb)))
    ensures Apart(TableAfter(ops))
  {
    EndpointsUniqueExactly(ops);
    TableSound(ops);
    PlainOverRuns(ops);
    UniqueMeansApart(TableAfter(ops));
  }
}
