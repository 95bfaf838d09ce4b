/**
 * What a chain of bundled plugins guarantees: order and repetition of defaults, defaults that
 * satisfy requirements, and immutable fields over a resource's life.
 */
module AdmissionRuns {
  import opened Wrappers
  import opened PathUtil
  import opened Defaults
  import opened Admission

  ghost predicate OnlyDefaults(ms: seq<Mutator>) {
    forall k :: 0 <= k < |ms| ==> ms[k].DefaultValue?
  }

  function DefaultOf(m: Mutator): Default
    requires m.DefaultValue?
  {
    Default(SplitPath(m.path), m.value)
  }

  function DefaultsOf(ms: seq<Mutator>): seq<Default>
    requires forall k :: 0 <= k < |ms| ==> ms[k].DefaultValue?
  {
    seq(|ms|, i requires 0 <= i < |ms| => DefaultOf(ms[i]))
  }

  lemma {:induction false} DefaultsRun(ms: seq<Mutator>, r: Request)
    requires OnlyDefaults(ms)
    ensures MutatedBy(ms, r) == (ApplyAll(r.content, DefaultsOf(ms)), None)
    decreases ms
  {
    if ms == [] {
    } else {
      assert DefaultsOf(ms)[1..] == DefaultsOf(ms[1..]);
      DefaultsRun(ms[1..], r.(content := Apply(r.content, DefaultOf(ms[0]))));
    }
  }

  /**
   * Admission with compatible default mutators, in particular ones whose paths pairwise diverge,
   * does not depend on their registration order: same object, same answer.
   */
  lemma RegistrationOrderIrrelevant(ms: seq<Mutator>, ns: seq<Mutator>, vs: seq<Validator>, r: Request)
    requires OnlyDefaults(ms) && OnlyDefaults(ns)
    requires multiset(DefaultsOf(ms)) == multiset(DefaultsOf(ns))
    requires PairwiseCompatible(DefaultsOf(ms))
    ensures Admitted(ms, vs, r) == Admitted(ns, vs, r)
  {
    DefaultsRun(ms, r);
    DefaultsRun(ns, r);
    OrderIrrelevant(r.content, DefaultsOf(ms), DefaultsOf(ns));
  }

  /** Running the default mutators on what they produced changes nothing. */
  lemma ReinvocationHarmless(ms: seq<Mutator>, r: Request)
    requires OnlyDefaults(ms)
    ensures var once := MutatedBy(ms, r).0; MutatedBy(ms, r.(content := once)) == (once, None)
  {
    DefaultsRun(ms, r);
    DefaultsRun(ms, r.(content := MutatedBy(ms, r).0));
    PassIsIdempotent(r.content, DefaultsOf(ms));
  }

  /** A path below the time of the last modification, which every stamp overwrites with a string. */
  predicate UnderLastModified(q: Path) {
    |q| > 2 && q[0] == "metadata" && q[1] == "lastModified"
  }

  /**
   * The two ways stamping takes presence away: a deletion whose metadata is present but no object,
   * and a last-modified entry that is an object with something in it.
   */
  predicate StampErases(operation: Operation, m: Object) {
    if operation == Delete then
      "metadata" in m && !m["metadata"].Obj? && NonEmpty(m["metadata"])
    else
      var c := Child(Child(m, "metadata"), "lastModified");
      exists k :: k in c && NonEmpty(c[k])
  }

  /** Looking below a key is looking into its child. */
  lemma LookupBelow(m: Object, q: Path)
    requires |q| > 1
    ensures IsPresent(m, q) <==> IsPresent(Child(m, q[0]), q[1..])
  {
  }

  /** The paths no stamp can take away: on a deletion all but the metadata itself. */
  predicate Unstamped(operation: Operation, q: Path) {
    if operation == Delete then q != ["metadata"] else !UnderLastModified(q)
  }

  lemma StampKeepsPresence(operation: Operation, m: Object, stamp: Stamp, q: Path)
    requires Unstamped(operation, q) || (operation == Delete && !StampErases(operation, m))
    requires IsPresent(m, q)
    ensures IsPresent(Stamped(operation, m, stamp), q)
  {
    var m' := Stamped(operation, m, stamp);
    var before, after := Child(m, "metadata"), Child(m', "metadata");
    if q[0] != "metadata" {
      assert Lookup(m', q) == Lookup(m, q);
    } else if |q| == 1 {
      assert operation != Delete ==> "lastModified" in after;
      assert operation == Delete ==> after == before;
    } else {
      LookupBelow(m, q);
      LookupBelow(m', q);
      if operation != Delete && q[1] == "lastModified" {
        assert q[1..] == ["lastModified"];
        assert after["lastModified"] == Str(stamp);
      } else {
        assert q[1..][0] == q[1];
        assert Lookup(after, q[1..]) == Lookup(before, q[1..]);
      }
    }
  }

  /** If a path below a key is present, so is its first step. */
  lemma FirstStepPresent(c: Object, q: Path)
    requires IsPresent(c, q)
    ensures q[0] in c && NonEmpty(c[q[0]])
  {
    if |q| > 1 {
      assert Lookup(c[q[0]].fields, q[1..]).Some?;
      assert c[q[0]].fields != map[];
    }
  }

  lemma ErasedWitness(operation: Operation, m: Object, stamp: Stamp) returns (q: Path)
    requires StampErases(operation, m)
    ensures IsPresent(m, q) && !IsPresent(Stamped(operation, m, stamp), q)
  {
    if operation == Delete {
      q := ["metadata"];
    } else {
      var c := Child(Child(m, "metadata"), "lastModified");
      var k :| k in c && NonEmpty(c[k]);
      q := ["metadata", "lastModified", k];
      var m' := Stamped(operation, m, stamp);
      assert q[1..] == ["lastModified", k] && q[1..][1..] == [k];
      LookupBelow(m, q);
      LookupBelow(Child(m, "metadata"), q[1..]);
      LookupBelow(m', q);
      LookupBelow(Child(m', "metadata"), q[1..]);
      assert Child(m', "metadata")["lastModified"] == Str(stamp);
    }
  }

  /** Stamping keeps everything present that was, exactly when neither is the case. */
  lemma StampKeepsPresenceExactly(operation: Operation, m: Object, stamp: Stamp)
    ensures (forall q :: IsPresent(m, q) ==> IsPresent(Stamped(operation, m, stamp), q))
       <==> !StampErases(operation, m)
  {
    if StampErases(operation, m) {
      var q := ErasedWitness(operation, m, stamp);
    } else {
      forall q | IsPresent(m, q) ensures IsPresent(Stamped(operation, m, stamp), q) {
        if operation != Delete && UnderLastModified(q) {
          LookupBelow(m, q);
          LookupBelow(Child(m, "metadata"), q[1..]);
          FirstStepPresent(Child(Child(m, "metadata"), "lastModified"), q[1..][1..]);
          assert false;
        }
        StampKeepsPresence(operation, m, stamp, q);
      }
    }
  }

  /** Default and timestamp mutators. */
  ghost predicate Bundled(ms: seq<Mutator>) {
    forall k :: 0 <= k < |ms| ==> ms[k].DefaultValue? || ms[k].Timestamp?
  }

  /** The path survives every mutator of the list. */
  ghost predicate Safe(ms: seq<Mutator>, operation: Operation, q: Path) {
    OnlyDefaults(ms) || Unstamped(operation, q)
  }

  lemma BundledKeepsPresence(m: Mutator, r: Request, q: Path)
    requires m.DefaultValue? || (m.Timestamp? && Unstamped(r.operation, q))
    requires IsPresent(r.content, q)
    ensures Mutated(m, r).1.None? && IsPresent(Mutated(m, r).0, q)
  {
    match m
    case DefaultValue(_, path, value) => SetKeepsPresence(r.content, SplitPath(path), value, q);
    case Timestamp(_, stamp) => StampKeepsPresence(r.operation, r.content, stamp, q);
  }

  lemma {:induction false} BundledRunKeepsPresence(ms: seq<Mutator>, r: Request, q: Path)
    requires Bundled(ms)
    ensures MutatedBy(ms, r).1.None?
    ensures Safe(ms, r.operation, q) && IsPresent(r.content, q) ==> IsPresent(MutatedBy(ms, r).0, q)
    decreases ms
  {
    if ms == [] {
    } else {
      assert forall k :: 0 <= k < |ms[1..]| ==> ms[1..][k] == ms[k + 1];
      if Safe(ms, r.operation, q) && IsPresent(r.content, q) {
        BundledKeepsPresence(ms[0], r, q);
      }
      BundledRunKeepsPresence(ms[1..], r.(content := Mutated(ms[0], r).0), q);
    }
  }

  /** Some mutator of the list defaults the field to a value that counts as present. */
  ghost predicate Defaulted(ms: seq<Mutator>, field: string) {
    exists k :: 0 <= k < |ms| && ms[k].DefaultValue? && ms[k].path == field && NonEmpty(ms[k].value)
  }

  lemma {:induction false} DefaultedIsPresent(ms: seq<Mutator>, r: Request, field: string)
    requires Bundled(ms) && field != "" && Defaulted(ms, field)
    requires Safe(ms, r.operation, SplitPath(field))
    ensures IsPresent(MutatedBy(ms, r).0, SplitPath(field))
    decreases ms
  {
    var q := SplitPath(field);
    var r1 := r.(content := Mutated(ms[0], r).0);
    assert forall k :: 0 <= k < |ms[1..]| ==> ms[1..][k] == ms[k + 1];
    if ms[0].DefaultValue? && ms[0].path == field && NonEmpty(ms[0].value) {
      SetMakesPresent(r.content, q, ms[0].value);
      BundledRunKeepsPresence(ms[1..], r1, q);
    } else {
      var k :| 0 <= k < |ms| && ms[k].DefaultValue? && ms[k].path == field && NonEmpty(ms[k].value);
      assert ms[1..][k - 1] == ms[k];
      DefaultedIsPresent(ms[1..], r1, field);
    }
  }

  lemma {:induction false} NothingMissing(fields: seq<string>, m: Object)
    requires forall k :: 0 <= k < |fields| ==> IsPresent(m, SplitPath(fields[k]))
    ensures MissingFields(fields, m) == []
  {
    if fields == [] {
    } else {
      NothingMissing(fields[..|fields| - 1], m);
    }
  }

  /**
   * A chain whose mutators default every required field never rejects a request for a missing one,
   * whatever object comes in and in whatever order the mutators run. If a timestamp mutator is in the
   * chain, the fields it can take away are excluded: those below the last-modified entry, and on a
   * deletion the metadata itself.
   */
  lemma DefaultsSatisfyRequirements(ms: seq<Mutator>, name: string, fields: seq<string>, r: Request)
    requires Bundled(ms)
    requires forall k :: 0 <= k < |fields| ==>
               fields[k] != "" && Defaulted(ms, fields[k]) && Safe(ms, r.operation, SplitPath(fields[k]))
    ensures Admitted(ms, [RequiredFields(name, fields)], r).1 == None
  {
    var m := MutatedBy(ms, r).0;
    BundledRunKeepsPresence(ms, r, []);
    forall k | 0 <= k < |fields| ensures IsPresent(m, SplitPath(fields[k])) {
      DefaultedIsPresent(ms, r, fields[k]);
    }
    NothingMissing(fields, m);
    assert Refused([RequiredFields(name, fields)], r.(content := m)) == None;
  }

  /** The names of the fields missing are exactly the required ones that are not present. */
  lemma {:induction false} MissingExactly(fields: seq<string>, m: Object, f: string)
    ensures f in MissingFields(fields, m) <==> f in fields && !IsPresent(m, SplitPath(f))
  {
    if fields == [] {
    } else {
      var init := fields[..|fields| - 1];
      MissingExactly(init, m, f);
      assert fields == init + [fields[|fields| - 1]];
    }
  }

  lemma {:induction false} NoneRefuses(vs: seq<Validator>, r: Request, k: nat)
    requires Refused(vs, r).None? && k < |vs|
    ensures Checked(vs[k], r).None?
    decreases vs
  {
    if k == 0 {
    } else {
      NoneRefuses(vs[1..], r, k - 1);
    }
  }

  lemma {:induction false} AllAccept(vs: seq<Validator>, r: Request)
    requires forall k :: 0 <= k < |vs| ==> Checked(vs[k], r).None?
    ensures Refused(vs, r).None?
    decreases vs
  {
    if vs == [] {
    } else {
      assert forall k :: 0 <= k < |vs[1..]| ==> vs[1..][k] == vs[k + 1];
      AllAccept(vs[1..], r);
    }
  }

  /** A request is admitted exactly when no mutator fails and every validator accepts what they leave. */
  lemma AdmittedExactly(ms: seq<Mutator>, vs: seq<Validator>, r: Request)
    ensures Admitted(ms, vs, r).1.None?
       <==> && MutatedBy(ms, r).1.None?
            && forall k :: 0 <= k < |vs| ==> Checked(vs[k], r.(content := Admitted(ms, vs, r).0)).None?
  {
    var r' := r.(content := MutatedBy(ms, r).0);
    if Refused(vs, r').None? {
      forall k | 0 <= k < |vs| ensures Checked(vs[k], r').None? {
        NoneRefuses(vs, r', k);
      }
    } else if forall k :: 0 <= k < |vs| ==> Checked(vs[k], r').None? {
      AllAccept(vs, r');
    }
  }

  /**
   * What a stamp writes, and what it leaves alone: everything outside the metadata, every other entry
   * of the metadata, and a creation time that is already there, whatever its value.
   */
  lemma StampFrame(operation: Operation, m: Object, stamp: Stamp, q: Path)
    requires q != []
    requires q[0] == "metadata" ==>
               |q| > 1 && q[1] != "lastModified"
               && (q[1] == "creationTimestamp" ==> q[1] in Child(m, "metadata") || operation != Create)
    ensures Lookup(Stamped(operation, m, stamp), q) == Lookup(m, q)
    ensures operation != Delete ==>
              Lookup(Stamped(operation, m, stamp), ["metadata", "lastModified"]) == Some(Str(stamp))
    ensures operation == Create && "creationTimestamp" !in Child(m, "metadata") ==>
              Lookup(Stamped(operation, m, stamp), ["metadata", "creationTimestamp"]) == Some(Str(stamp))
  {
    var m' := Stamped(operation, m, stamp);
    if q[0] == "metadata" {
      assert q[1..][0] == q[1];
      assert Lookup(Child(m', "metadata"), q[1..]) == Lookup(Child(m, "metadata"), q[1..]);
    }
    assert ["metadata", "lastModified"][1..] == ["lastModified"];
    assert ["metadata", "creationTimestamp"][1..] == ["creationTimestamp"];
  }

  lemma {:induction false} NoneChanged(fields: seq<string>, before: Object, m: Object, k: nat)
    requires FirstChanged(fields, before, m).None? && k < |fields|
    ensures Unchanged(before, m, fields[k])
    decreases fields
  {
    if k == 0 {
    } else {
      NoneChanged(fields[1..], before, m, k - 1);
    }
  }

  /** One requested update: the submitted object, under the name it is submitted for. */
  datatype Submission = Submission(name: string, content: Object)

  /** What is stored after a series of updates, each admitted against what is stored before it. */
  function Stored(ms: seq<Mutator>, vs: seq<Validator>, created: Object, updates: seq<Submission>): Object {
    if updates == [] then created
    else
      var stored, last := Stored(ms, vs, created, updates[..|updates| - 1]), updates[|updates| - 1];
      var (content, err) := Admitted(ms, vs, Request(Update, last.name, last.content, Some(stored)));
      if err.None? then content else stored
  }

  /**
   * Along every series of updates, admitted or refused, through any mutators and any further
   * validators, an immutable field keeps the value it was created with.
   */
  lemma {:induction false} ImmutableFieldsKept(ms: seq<Mutator>, vs: seq<Validator>, created: Object,
                                               updates: seq<Submission>, v: nat, f: nat)
    requires v < |vs| && vs[v].ImmutableFields? && f < |vs[v].fields|
    ensures Unchanged(created, Stored(ms, vs, created, updates), vs[v].fields[f])
  {
    if updates == [] {
    } else {
      var init, last := updates[..|updates| - 1], updates[|updates| - 1];
      ImmutableFieldsKept(ms, vs, created, init, v, f);
      var stored := Stored(ms, vs, created, init);
      var r := Request(Update, last.name, last.content, Some(stored));
      var (content, err) := Admitted(ms, vs, r);
      if err.None? {
        var r' := r.(content := content);
        NoneRefuses(vs, r', v);
        NoneChanged(vs[v].fields, stored, content, f);
      }
    }
  }
}
