/**
 * What the admission chain answers, said without its own scans: which requests each validator
 * accepts, what it names when it refuses, and how mutators and validators follow one another.
 */
module AdmissionAnswers {
  import opened Wrappers
  import opened PathUtil
  import opened Defaults
  import opened Admission
  import opened AdmissionRuns

  /** The field is there, and is not null or an empty string, list or object. */
  predicate Holds(m: Object, field: string) {
    var v := Lookup(m, SplitPath(field));
    v.Some? && v.value !in {Null, Str(""), Arr([]), Obj(map[])}
  }

  function OrNull(v: Option<Json>): Json {
    match v
    case Some(value) => value
    case None => Null
  }

  /** The field has another value than before, null standing for an absent one and for an empty object. */
  predicate Differs(before: Object, m: Object, field: string) {
    Collapsed(OrNull(Lookup(before, SplitPath(field)))) != Collapsed(OrNull(Lookup(m, SplitPath(field))))
  }

  /** The request is an update, and the field at `k` is the first of the list it changes. */
  ghost predicate FirstDiffers(fields: seq<string>, r: Request, k: int) {
    && r.operation == Update && r.oldContent.Some?
    && 0 <= k < |fields|
    && Differs(r.oldContent.value, r.content, fields[k])
    && forall j :: 0 <= j < k ==> !Differs(r.oldContent.value, r.content, fields[j])
  }

  lemma UnchangedMeans(before: Object, m: Object, field: string)
    ensures Unchanged(before, m, field) <==> !Differs(before, m, field)
  {
  }

  lemma {:induction false} SomeChanged(fields: seq<string>, before: Object, m: Object)
    ensures FirstChanged(fields, before, m).Some? <==> exists f :: f in fields && Differs(before, m, f)
  {
    if fields == [] {
    } else {
      SomeChanged(fields[1..], before, m);
      UnchangedMeans(before, m, fields[0]);
      assert fields == [fields[0]] + fields[1..];
    }
  }

  lemma {:induction false} FirstChangedAt(fields: seq<string>, before: Object, m: Object, k: nat)
    requires k < |fields| && Differs(before, m, fields[k])
    requires forall j :: 0 <= j < k ==> !Differs(before, m, fields[j])
    ensures FirstChanged(fields, before, m) == Some(fields[k])
    decreases k
  {
    UnchangedMeans(before, m, fields[0]);
    if k == 0 {
    } else {
      FirstChangedAt(fields[1..], before, m, k - 1);
    }
  }

  /** An immutable-fields validator refuses exactly updates that change a field, and names the first. */
  lemma ImmutableRefusesExactly(name: string, fields: seq<string>, r: Request)
    ensures Checked(ImmutableFields(name, fields), r).Some?
       <==> r.operation == Update && r.oldContent.Some?
            && exists f :: f in fields && Differs(r.oldContent.value, r.content, f)
    ensures forall k :: FirstDiffers(fields, r, k) ==>
              Checked(ImmutableFields(name, fields), r) == Some(Rejection(name, FieldImmutable(fields[k])))
  {
    if r.oldContent.Some? {
      SomeChanged(fields, r.oldContent.value, r.content);
    }
    forall k | FirstDiffers(fields, r, k)
      ensures Checked(ImmutableFields(name, fields), r) == Some(Rejection(name, FieldImmutable(fields[k])))
    {
      FirstChangedAt(fields, r.oldContent.value, r.content, k);
    }
  }

  /** What is reported missing comes in the order of the list. */
  lemma {:induction false} MissingConcat(a: seq<string>, b: seq<string>, m: Object)
    ensures MissingFields(a + b, m) == MissingFields(a, m) + MissingFields(b, m)
  {
    if b == [] {
      assert a + b == a;
    } else {
      assert (a + b)[..|a + b| - 1] == a + b[..|b| - 1];
      MissingConcat(a, b[..|b| - 1], m);
    }
  }

  /** Which requests a validator is to accept. */
  ghost predicate Accepts(v: Validator, r: Request) {
    match v
    case RequiredFields(_, fields) => forall f :: f in fields ==> Holds(r.content, f)
    case NameFormat(_, pattern) => r.name != "" && (pattern.Some? ==> pattern.value(r.name))
    case ImmutableFields(_, fields) =>
      r.operation == Update && r.oldContent.Some? ==>
        forall f :: f in fields ==> !Differs(r.oldContent.value, r.content, f)
    case OtherValidator(_, check) => check(r).None?
  }

  lemma HoldsMeans(m: Object, field: string)
    ensures IsPresent(m, SplitPath(field)) <==> Holds(m, field)
  {
  }

  lemma {:induction false} MissingNone(fields: seq<string>, m: Object)
    ensures MissingFields(fields, m) == [] <==> forall f :: f in fields ==> Holds(m, f)
  {
    if fields == [] {
    } else {
      var init, last := fields[..|fields| - 1], fields[|fields| - 1];
      MissingNone(init, m);
      HoldsMeans(m, last);
      assert fields == init + [last];
    }
  }

  lemma CheckedExactly(v: Validator, r: Request)
    ensures Checked(v, r).None? <==> Accepts(v, r)
  {
    match v
    case RequiredFields(_, fields) => MissingNone(fields, r.content);
    case ImmutableFields(name, fields) => ImmutableRefusesExactly(name, fields, r);
    case _ =>
  }

  /** What a refusing validator names: the missing fields, or what is wrong with the name. */
  lemma RefusalNames(v: Validator, r: Request)
    requires !Accepts(v, r)
    ensures v.RequiredFields? ==> Checked(v, r) == Some(Rejection(v.name, Missing(MissingFields(v.fields, r.content))))
    ensures v.NameFormat? ==>
              Checked(v, r) == Some(Rejection(v.name, if r.name == "" then NameEmpty else NameMismatch))
  {
    CheckedExactly(v, r);
  }

  /** The object after the first `k` mutators, had none of them failed. */
  function Rewritten(ms: seq<Mutator>, r: Request, k: nat): Object
    requires k <= |ms|
  {
    if k == 0 then r.content else Mutated(ms[k - 1], r.(content := Rewritten(ms, r, k - 1))).0
  }

  /** The error of the mutator at `k` on what the ones before it leave. */
  function Failure(ms: seq<Mutator>, r: Request, k: nat): Option<string>
    requires k < |ms|
  {
    Mutated(ms[k], r.(content := Rewritten(ms, r, k))).1
  }

  ghost predicate NoneFails(ms: seq<Mutator>, r: Request, n: nat)
    requires n <= |ms|
  {
    forall k :: 0 <= k < n ==> Failure(ms, r, k).None?
  }

  lemma {:induction false} RewrittenTail(ms: seq<Mutator>, r: Request, k: nat)
    requires 0 < k <= |ms|
    ensures Rewritten(ms, r, k) == Rewritten(ms[1..], r.(content := Mutated(ms[0], r).0), k - 1)
  {
    if k == 1 {
      assert r.(content := Rewritten(ms, r, 0)) == r;
    } else {
      RewrittenTail(ms, r, k - 1);
    }
  }

  lemma {:induction false} MutatedInTurn(ms: seq<Mutator>, r: Request, n: nat)
    requires n <= |ms| && NoneFails(ms, r, n)
    ensures n == |ms| ==> MutatedBy(ms, r) == (Rewritten(ms, r, n), None)
    ensures n < |ms| && Failure(ms, r, n).Some? ==>
              MutatedBy(ms, r) == (Rewritten(ms, r, n + 1), Some(MutatorFailed(ms[n].name, Failure(ms, r, n).value)))
    decreases ms
  {
    assert r.(content := Rewritten(ms, r, 0)) == r;
    if n == 0 {
    } else {
      var r1 := r.(content := Mutated(ms[0], r).0);
      assert Failure(ms, r, 0).None?;
      forall k | 0 <= k < |ms| - 1 ensures Failure(ms[1..], r1, k) == Failure(ms, r, k + 1) {
        RewrittenTail(ms, r, k + 1);
      }
      RewrittenTail(ms, r, n);
      if n < |ms| {
        RewrittenTail(ms, r, n + 1);
      }
      MutatedInTurn(ms[1..], r1, n - 1);
    }
  }

  /** The error a validator's refusal becomes. */
  function Answered(v: Validator, refusal: Refusal): AdmitError {
    if refusal.Rejection? then Rejected(refusal.plugin, refusal.reason)
    else Rejected(v.name, Stated(refusal.message))
  }

  lemma {:induction false} RefusedInTurn(vs: seq<Validator>, r: Request, n: nat)
    requires n <= |vs| && forall k :: 0 <= k < n ==> Accepts(vs[k], r)
    ensures n == |vs| ==> Refused(vs, r) == None
    ensures n < |vs| && !Accepts(vs[n], r) ==>
              Checked(vs[n], r).Some? && Refused(vs, r) == Some(Answered(vs[n], Checked(vs[n], r).value))
    decreases vs
  {
    if vs == [] {
    } else {
      CheckedExactly(vs[0], r);
      if n > 0 {
        RefusedInTurn(vs[1..], r, n - 1);
      }
    }
  }

  /** The validator at `n` is the first that does not accept the request. */
  ghost predicate FirstRefusal(vs: seq<Validator>, r: Request, n: int) {
    0 <= n < |vs| && !Accepts(vs[n], r) && forall k :: 0 <= k < n ==> Accepts(vs[k], r)
  }

  lemma JudgedInTurn(vs: seq<Validator>, r: Request)
    ensures Refused(vs, r) == None <==> forall k :: 0 <= k < |vs| ==> Accepts(vs[k], r)
    ensures forall n :: FirstRefusal(vs, r, n) ==>
              Checked(vs[n], r).Some? && Refused(vs, r) == Some(Answered(vs[n], Checked(vs[n], r).value))
  {
    forall n | FirstRefusal(vs, r, n)
      ensures Checked(vs[n], r).Some? && Refused(vs, r) == Some(Answered(vs[n], Checked(vs[n], r).value))
    {
      RefusedInTurn(vs, r, n);
    }
    if Refused(vs, r) == None {
      forall k | 0 <= k < |vs| ensures Accepts(vs[k], r) {
        NoneRefuses(vs, r, k);
        CheckedExactly(vs[k], r);
      }
    }
    if forall k :: 0 <= k < |vs| ==> Accepts(vs[k], r) {
      RefusedInTurn(vs, r, |vs|);
    }
  }

  /**
   * Mutators run one after the other, each on what the one before leaves; the first that fails ends
   * the request with its error. The validators then judge the last object; the first that does not
   * accept it decides the answer, and a request all accept is admitted.
   */
  lemma AdmittedInTurn(ms: seq<Mutator>, vs: seq<Validator>, r: Request)
    ensures forall n :: 0 <= n < |ms| && NoneFails(ms, r, n) && Failure(ms, r, n).Some? ==>
              Admitted(ms, vs, r)
                == (Rewritten(ms, r, n + 1), Some(MutatorFailed(ms[n].name, Failure(ms, r, n).value)))
    ensures NoneFails(ms, r, |ms|) ==>
              var m := Rewritten(ms, r, |ms|);
              && Admitted(ms, vs, r).0 == m
              && (Admitted(ms, vs, r).1 == None <==> forall k :: 0 <= k < |vs| ==> Accepts(vs[k], r.(content := m)))
              && forall n :: FirstRefusal(vs, r.(content := m), n) ==>
                   Checked(vs[n], r.(content := m)).Some?
                   && Admitted(ms, vs, r).1 == Some(Answered(vs[n], Checked(vs[n], r.(content := m)).value))
  {
    forall n | 0 <= n < |ms| && NoneFails(ms, r, n) && Failure(ms, r, n).Some?
      ensures MutatedBy(ms, r) == (Rewritten(ms, r, n + 1), Some(MutatorFailed(ms[n].name, Failure(ms, r, n).value)))
    {
      MutatedInTurn(ms, r, n);
    }
    if NoneFails(ms, r, |ms|) {
      MutatedInTurn(ms, r, |ms|);
      JudgedInTurn(vs, r.(content := Rewritten(ms, r, |ms|)));
    }
  }
}
