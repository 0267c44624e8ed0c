/**
 * DeleteStatefulSetsHavingDeprecatedRoleLabelKey: for each key of a list, in
 * order, fetch the StatefulSet and delete it when its `.spec.selector` still
 * selects on the deprecated garden-role label key.
 *
 * The API client is a class over a store of StatefulSets, a fixed set of
 * keys whose lookups fail with an error other than "not found", and the log
 * of the calls made on it.
 */
module RoleLabelCleanup {
  import opened Wrappers

  /** The deprecated label key (constant DeprecatedGardenRole of the v1beta1 constants package). */
  const DeprecatedGardenRole: string := "garden.sapcloud.io/role"

  datatype ObjectKey = ObjectKey(namespace: string, name: string)

  /** The part of a StatefulSet the cleanup reads: the labels of `.spec.selector.matchLabels`. */
  datatype StatefulSet = StatefulSet(matchLabels: map<string, string>)

  datatype GetError = NotFound | Failed(message: string)

  /** A call made on the client, as a mock client records it. */
  datatype Call = GetCall(key: ObjectKey) | DeleteCall(key: ObjectKey)

  predicate HasDeprecatedRoleLabel(sts: StatefulSet) {
    DeprecatedGardenRole in sts.matchLabels
  }

  /** What a Get on `key` returns: an injected failure first, then the stored object, else not-found. */
  function Lookup(objects: map<ObjectKey, StatefulSet>, failures: map<ObjectKey, string>, key: ObjectKey)
    : (r: Result<StatefulSet, GetError>)
    ensures r.Ok? <==> key !in failures && key in objects
    ensures r == Err(NotFound) <==> key !in failures && key !in objects
    // a successful Get hands back the stored object, a failing one its own error
    ensures r.Ok? ==> r.value == objects[key]
    ensures key in failures ==> r == Err(Failed(failures[key]))
  {
    if key in failures then Err(Failed(failures[key]))
    else if key in objects then Ok(objects[key])
    else Err(NotFound)
  }

  class Client {
    /** The StatefulSets in the store, by key. */
    var objects: map<ObjectKey, StatefulSet>
    /** Keys whose Get fails with the given message. */
    const failures: map<ObjectKey, string>
    /** Every call made so far, oldest first. */
    var calls: seq<Call>

    constructor (objects: map<ObjectKey, StatefulSet>, failures: map<ObjectKey, string>)
      ensures this.objects == objects && this.failures == failures && calls == []
    {
      this.objects := objects;
      this.failures := failures;
      calls := [];
    }

    method Get(key: ObjectKey) returns (r: Result<StatefulSet, GetError>)
      modifies this`calls
      ensures r == Lookup(objects, failures, key)
      ensures calls == old(calls) + [GetCall(key)]
    {
      r := Lookup(objects, failures, key);
      calls := calls + [GetCall(key)];
    }

    /** Deletes the object immediately: waiting until it is gone is not modelled. */
    method Delete(key: ObjectKey)
      modifies this`objects, this`calls
      ensures objects == old(objects) - {key}
      ensures calls == old(calls) + [DeleteCall(key)]
    {
      objects := objects - {key};
      calls := calls + [DeleteCall(key)];
    }
  }

  /** The state left behind, the error returned and the calls made by a cleanup. */
  datatype Outcome = Outcome(objects: map<ObjectKey, StatefulSet>, err: Option<GetError>, calls: seq<Call>)

  /** The cleanup of `keys`, one key at a time, as a function of the store. */
  function Sweep(objects: map<ObjectKey, StatefulSet>, failures: map<ObjectKey, string>, keys: seq<ObjectKey>)
    : (o: Outcome)
    // the walk only removes objects: it never adds one or changes one it keeps
    ensures o.objects.Keys <= objects.Keys
    ensures forall k :: k in o.objects ==> o.objects[k] == objects[k]
    // the first call made is the Get of the first key
    ensures keys != [] ==> o.calls != [] && o.calls[0] == GetCall(keys[0])
    decreases |keys|
  {
    if keys == [] then Outcome(objects, None, [])
    else
      var key := keys[0];
      match Lookup(objects, failures, key)
      case Err(NotFound) =>
        var rest := Sweep(objects, failures, keys[1..]);
        Outcome(rest.objects, rest.err, [GetCall(key)] + rest.calls)
      case Err(e) =>
        Outcome(objects, Some(e), [GetCall(key)])
      case Ok(sts) =>
        if HasDeprecatedRoleLabel(sts) then
          var rest := Sweep(objects - {key}, failures, keys[1..]);
          Outcome(rest.objects, rest.err, [GetCall(key), DeleteCall(key)] + rest.calls)
        else
          var rest := Sweep(objects, failures, keys[1..]);
          Outcome(rest.objects, rest.err, [GetCall(key)] + rest.calls)
  }

  /** The cleanup of keys[i..] is one step on keys[i] followed by the cleanup of keys[i+1..]. */
  lemma SweepAt(objects: map<ObjectKey, StatefulSet>, failures: map<ObjectKey, string>, keys: seq<ObjectKey>, i: nat)
    requires i < |keys|
    ensures var key := keys[i];
            var o := Sweep(objects, failures, keys[i..]);
            match Lookup(objects, failures, key)
            case Err(NotFound) =>
              var rest := Sweep(objects, failures, keys[i + 1..]);
              o == Outcome(rest.objects, rest.err, [GetCall(key)] + rest.calls)
            case Err(e) => o == Outcome(objects, Some(e), [GetCall(key)])
            case Ok(sts) =>
              if HasDeprecatedRoleLabel(sts) then
                var rest := Sweep(objects - {key}, failures, keys[i + 1..]);
                o == Outcome(rest.objects, rest.err, [GetCall(key), DeleteCall(key)] + rest.calls)
              else
                var rest := Sweep(objects, failures, keys[i + 1..]);
                o == Outcome(rest.objects, rest.err, [GetCall(key)] + rest.calls)
  {
    assert keys[i..][0] == keys[i] && keys[i..][1..] == keys[i + 1..];
  }

  /** After the calls `done`, what is left of the walk `total` is the walk `rest`. */
  ghost predicate Resumes(total: Outcome, rest: Outcome, done: seq<Call>) {
    total == Outcome(rest.objects, rest.err, done + rest.calls)
  }

  lemma ResumeStep(total: Outcome, rest: Outcome, next: Outcome, done: seq<Call>, step: seq<Call>)
    requires Resumes(total, rest, done)
    requires rest == Outcome(next.objects, next.err, step + next.calls)
    ensures Resumes(total, next, done + step)
  {
    assert done + (step + next.calls) == (done + step) + next.calls;
  }

  method DeleteStatefulSetsHavingDeprecatedRoleLabelKey(c: Client, keys: seq<ObjectKey>) returns (err: Option<GetError>)
    modifies c
    ensures var o := Sweep(old(c.objects), c.failures, keys);
            c.objects == o.objects && err == o.err && c.calls == old(c.calls) + o.calls
  {
    ghost var before := c.calls;
    ghost var total := Sweep(c.objects, c.failures, keys);
    ghost var done: seq<Call> := [];
    assert keys[0..] == keys;
    var i := 0;
    while i < |keys|
      invariant 0 <= i <= |keys|
      invariant c.calls == before + done
      invariant Resumes(total, Sweep(c.objects, c.failures, keys[i..]), done)
    {
      var key := keys[i];
      ghost var rest := Sweep(c.objects, c.failures, keys[i..]);
      SweepAt(c.objects, c.failures, keys, i);
      var r := c.Get(key);
      match r {
        case Err(NotFound) =>
          ResumeStep(total, rest, Sweep(c.objects, c.failures, keys[i + 1..]), done, [GetCall(key)]);
          done := done + [GetCall(key)];
        case Err(e) =>
          assert rest == Outcome(c.objects, Some(e), [GetCall(key)]);
          return Some(e);
        case Ok(sts) =>
          if HasDeprecatedRoleLabel(sts) {
            c.Delete(key);
            ResumeStep(total, rest, Sweep(c.objects, c.failures, keys[i + 1..]), done, [GetCall(key), DeleteCall(key)]);
            done := done + [GetCall(key), DeleteCall(key)];
          } else {
            ResumeStep(total, rest, Sweep(c.objects, c.failures, keys[i + 1..]), done, [GetCall(key)]);
            done := done + [GetCall(key)];
          }
      }
      i := i + 1;
    }
    assert keys[|keys|..] == [];
    err := None;
  }

  // ---------------------------------------------------------------------------
  // What the cleanup does, in closed form
  // ---------------------------------------------------------------------------

  /** Index of the first key whose lookup fails with an error other than not-found, or |keys|. */
  function FirstFailure(keys: seq<ObjectKey>, failures: map<ObjectKey, string>): (n: nat)
    ensures n <= |keys|
    ensures forall i :: 0 <= i < n ==> keys[i] !in failures
    ensures n < |keys| ==> keys[n] in failures
  {
    if keys == [] then 0
    else if keys[0] in failures then 0
    else 1 + FirstFailure(keys[1..], failures)
  }

  /** The stored StatefulSets among `ks` that carry the deprecated label key. */
  function Doomed(objects: map<ObjectKey, StatefulSet>, ks: seq<ObjectKey>): set<ObjectKey> {
    set k | k in ks && k in objects && HasDeprecatedRoleLabel(objects[k])
  }

  /** The keys of the Get calls in a log, in order. */
  function GetKeys(calls: seq<Call>): (r: seq<ObjectKey>)
    ensures |r| <= |calls|
  {
    if calls == [] then []
    else if calls[0].GetCall? then [calls[0].key] + GetKeys(calls[1..])
    else GetKeys(calls[1..])
  }

  /** Every Delete in a log comes right after a Get of the same key. */
  ghost predicate DeletesFollowGets(calls: seq<Call>) {
    forall i :: 0 <= i < |calls| && calls[i].DeleteCall? ==> i > 0 && calls[i - 1] == GetCall(calls[i].key)
  }

  lemma DoomedWithout(objects: map<ObjectKey, StatefulSet>, key: ObjectKey, ks: seq<ObjectKey>)
    ensures Doomed(objects - {key}, ks) == Doomed(objects, ks) - {key}
  {
  }

  /**
   * Let n be the position of the first key whose Get fails with an error
   * other than not-found. The cleanup deletes exactly the StatefulSets with
   * the deprecated label key among the keys before n, leaves every other
   * object as it was, and returns that Get error unchanged (no error when
   * there is none).
   */
  lemma {:induction false} SweepClosedForm(objects: map<ObjectKey, StatefulSet>, failures: map<ObjectKey, string>,
                                           keys: seq<ObjectKey>)
    ensures var n := FirstFailure(keys, failures);
            var o := Sweep(objects, failures, keys);
            && o.objects == objects - Doomed(objects, keys[..n])
            && o.err == if n < |keys| then Some(Failed(failures[keys[n]])) else None
  {
    if keys != [] && keys[0] !in failures {
      var key := keys[0];
      var n := FirstFailure(keys, failures);
      var n' := FirstFailure(keys[1..], failures);
      assert n == n' + 1;
      assert keys[..n] == [key] + keys[1..][..n'];
      assert n < |keys| ==> keys[n] == keys[1..][n'];
      SweepStep(objects, failures, keys);
      if key in objects && HasDeprecatedRoleLabel(objects[key]) {
        SweepClosedForm(objects - {key}, failures, keys[1..]);
        DoomedWithout(objects, key, keys[1..][..n']);
        assert Doomed(objects, keys[..n]) == {key} + Doomed(objects, keys[1..][..n']);
        assert (objects - {key}) - Doomed(objects - {key}, keys[1..][..n']) == objects - Doomed(objects, keys[..n]);
      } else {
        SweepClosedForm(objects, failures, keys[1..]);
        assert Doomed(objects, keys[..n]) == Doomed(objects, keys[1..][..n']);
      }
    } else if keys != [] {
      assert keys[..0] == [];
    }
  }

  lemma GetKeysPrepend(c: Call, calls: seq<Call>)
    ensures GetKeys([c] + calls) == (if c.GetCall? then [c.key] else []) + GetKeys(calls)
  {
    assert ([c] + calls)[1..] == calls;
  }

  lemma FollowPrepend(key: ObjectKey, deleting: bool, calls: seq<Call>)
    requires DeletesFollowGets(calls)
    ensures DeletesFollowGets((if deleting then [GetCall(key), DeleteCall(key)] else [GetCall(key)]) + calls)
  {
    var head := if deleting then [GetCall(key), DeleteCall(key)] else [GetCall(key)];
    var all := head + calls;
    forall i | 0 <= i < |all| && all[i].DeleteCall?
      ensures i > 0 && all[i - 1] == GetCall(all[i].key)
    {
      if i > |head| {
        assert all[i] == calls[i - |head|] && all[i - 1] == calls[i - 1 - |head|];
      }
    }
  }

  /** One step of the cleanup on a key whose lookup does not fail. */
  lemma SweepStep(objects: map<ObjectKey, StatefulSet>, failures: map<ObjectKey, string>, keys: seq<ObjectKey>)
    requires keys != [] && keys[0] !in failures
    ensures var key := keys[0];
            var deleting := key in objects && HasDeprecatedRoleLabel(objects[key]);
            var rest := Sweep(if deleting then objects - {key} else objects, failures, keys[1..]);
            var o := Sweep(objects, failures, keys);
            && o.objects == rest.objects && o.err == rest.err
            && o.calls == (if deleting then [GetCall(key), DeleteCall(key)] else [GetCall(key)]) + rest.calls
  {
  }

  /**
   * The Gets made: one for every key up to and including the first failing
   * one, in list order; the keys after it are not touched.
   */
  lemma {:induction false} SweepGets(objects: map<ObjectKey, StatefulSet>, failures: map<ObjectKey, string>,
                                     keys: seq<ObjectKey>)
    ensures var n := FirstFailure(keys, failures);
            GetKeys(Sweep(objects, failures, keys).calls) == keys[..if n < |keys| then n + 1 else n]
  {
    if keys != [] {
      var key := keys[0];
      if key in failures {
        GetKeysPrepend(GetCall(key), []);
        assert keys[..1] == [key];
      } else {
        var n, n' := FirstFailure(keys, failures), FirstFailure(keys[1..], failures);
        var m' := if n' < |keys| - 1 then n' + 1 else n';
        assert keys[..if n < |keys| then n + 1 else n] == [key] + keys[1..][..m'];
        var deleting := key in objects && HasDeprecatedRoleLabel(objects[key]);
        var inner := if deleting then objects - {key} else objects;
        var rest := Sweep(inner, failures, keys[1..]);
        SweepStep(objects, failures, keys);
        SweepGets(inner, failures, keys[1..]);
        if deleting {
          GetKeysPrepend(DeleteCall(key), rest.calls);
          GetKeysPrepend(GetCall(key), [DeleteCall(key)] + rest.calls);
          assert [GetCall(key), DeleteCall(key)] + rest.calls == [GetCall(key)] + ([DeleteCall(key)] + rest.calls);
        } else {
          GetKeysPrepend(GetCall(key), rest.calls);
        }
      }
    }
  }

  /**
   * The Deletes made: a Delete for each StatefulSet with the deprecated
   * label key among the keys before the first failing one, and for no other
   * key, each right after the Get of its key (SweepDeletesOnce counts them).
   */
  lemma {:induction false} SweepDeletes(objects: map<ObjectKey, StatefulSet>, failures: map<ObjectKey, string>,
                                        keys: seq<ObjectKey>)
    ensures var n := FirstFailure(keys, failures);
            var calls := Sweep(objects, failures, keys).calls;
            && (forall k :: DeleteCall(k) in calls <==> k in Doomed(objects, keys[..n]))
            && DeletesFollowGets(calls)
  {
    if keys != [] && keys[0] !in failures {
      var key := keys[0];
      var n, n' := FirstFailure(keys, failures), FirstFailure(keys[1..], failures);
      assert keys[..n] == [key] + keys[1..][..n'];
      var deleting := key in objects && HasDeprecatedRoleLabel(objects[key]);
      var inner := if deleting then objects - {key} else objects;
      SweepStep(objects, failures, keys);
      SweepDeletes(inner, failures, keys[1..]);
      FollowPrepend(key, deleting, Sweep(inner, failures, keys[1..]).calls);
      if deleting {
        DoomedWithout(objects, key, keys[1..][..n']);
        assert Doomed(objects, keys[..n]) == {key} + Doomed(inner, keys[1..][..n']);
      } else {
        assert Doomed(objects, keys[..n]) == Doomed(objects, keys[1..][..n']);
      }
    }
  }

  /** The Deletes of `k` in one step's calls followed by the rest of the walk's. */
  lemma DeleteCountPrepend(key: ObjectKey, deleting: bool, rest: seq<Call>, k: ObjectKey)
    ensures multiset((if deleting then [GetCall(key), DeleteCall(key)] else [GetCall(key)]) + rest)[DeleteCall(k)]
         == (if deleting && k == key then 1 else 0) + multiset(rest)[DeleteCall(k)]
  {
    var head := if deleting then [GetCall(key), DeleteCall(key)] else [GetCall(key)];
    assert multiset(head + rest) == multiset(head) + multiset(rest);
  }

  lemma DoomedPrepend(objects: map<ObjectKey, StatefulSet>, key: ObjectKey, ks: seq<ObjectKey>)
    ensures Doomed(objects, [key] + ks)
         == (if key in objects && HasDeprecatedRoleLabel(objects[key]) then {key} else {}) + Doomed(objects, ks)
  {
    forall k ensures k in Doomed(objects, [key] + ks) <==> (k == key && key in Doomed(objects, [key])) || k in Doomed(objects, ks) {
      assert k in [key] + ks <==> k == key || k in ks;
    }
  }

  /** The doomed keys of a walk whose first key does not fail: that key if it is doomed, then the rest's. */
  lemma DoomedStep(objects: map<ObjectKey, StatefulSet>, failures: map<ObjectKey, string>, keys: seq<ObjectKey>)
    requires keys != [] && keys[0] !in failures
    ensures var key := keys[0];
            var deleting := key in objects && HasDeprecatedRoleLabel(objects[key]);
            var inner := if deleting then objects - {key} else objects;
            var rest := Doomed(inner, keys[1..][..FirstFailure(keys[1..], failures)]);
            && Doomed(objects, keys[..FirstFailure(keys, failures)]) == (if deleting then {key} else {}) + rest
            && (deleting ==> key !in rest)
  {
    var key := keys[0];
    var n, n' := FirstFailure(keys, failures), FirstFailure(keys[1..], failures);
    assert n == n' + 1;
    var ks := keys[1..][..n'];
    assert keys[..n] == [key] + ks;
    DoomedPrepend(objects, key, ks);
    if key in objects && HasDeprecatedRoleLabel(objects[key]) {
      DoomedWithout(objects, key, ks);
      assert {key} + Doomed(objects, ks) == {key} + (Doomed(objects, ks) - {key});
    }
  }

  /** A labelled key listed twice is deleted once: its second Get finds nothing. */
  lemma {:induction false} SweepDeletesOnce(objects: map<ObjectKey, StatefulSet>, failures: map<ObjectKey, string>,
                                            keys: seq<ObjectKey>)
    ensures var n := FirstFailure(keys, failures);
            var calls := Sweep(objects, failures, keys).calls;
            forall k :: multiset(calls)[DeleteCall(k)] == if k in Doomed(objects, keys[..n]) then 1 else 0
  {
    var n := FirstFailure(keys, failures);
    if keys != [] && keys[0] !in failures {
      var key := keys[0];
      var deleting := key in objects && HasDeprecatedRoleLabel(objects[key]);
      var inner := if deleting then objects - {key} else objects;
      var rest := Sweep(inner, failures, keys[1..]).calls;
      SweepStep(objects, failures, keys);
      SweepDeletesOnce(inner, failures, keys[1..]);
      DoomedStep(objects, failures, keys);
      forall k ensures multiset(Sweep(objects, failures, keys).calls)[DeleteCall(k)]
                    == if k in Doomed(objects, keys[..n]) then 1 else 0 {
        DeleteCountPrepend(key, deleting, rest, k);
      }
    } else {
      assert keys[..n] == [];
      SweepStopsAtOnce(objects, failures, keys);
    }
  }

  /** With no keys, or a failing first key, the walk makes at most one call, a Get. */
  lemma SweepStopsAtOnce(objects: map<ObjectKey, StatefulSet>, failures: map<ObjectKey, string>, keys: seq<ObjectKey>)
    requires keys == [] || keys[0] in failures
    ensures Sweep(objects, failures, keys).calls == if keys == [] then [] else [GetCall(keys[0])]
  {
  }

  /** With no failing lookups, a second cleanup over the same keys finds nothing left to delete. */
  lemma SweepIdempotent(objects: map<ObjectKey, StatefulSet>, failures: map<ObjectKey, string>, keys: seq<ObjectKey>)
    requires forall i :: 0 <= i < |keys| ==> keys[i] !in failures
    ensures var first := Sweep(objects, failures, keys);
            var second := Sweep(first.objects, failures, keys);
            second.objects == first.objects && second.err == None
  {
    var first := Sweep(objects, failures, keys);
    SweepClosedForm(objects, failures, keys);
    SweepClosedForm(first.objects, failures, keys);
    assert keys[..|keys|] == keys;
    assert Doomed(first.objects, keys) == {};
  }

  // ---------------------------------------------------------------------------
  // The documented cases: StatefulSets "foo" and "bar" in namespace "garden"
  // ---------------------------------------------------------------------------

  const Key1: ObjectKey := ObjectKey("garden", "foo")
  const Key2: ObjectKey := ObjectKey("garden", "bar")

  /** A Get error other than not-found on the first key is returned; the second key is not touched. */
  lemma ExampleGetError(objects: map<ObjectKey, StatefulSet>)
    ensures Sweep(objects, map[Key1 := "fake err"], [Key1, Key2])
         == Outcome(objects, Some(Failed("fake err")), [GetCall(Key1)])
  {
  }

  /** Missing StatefulSets are skipped without error. */
  lemma ExampleMissing()
    ensures Sweep(map[], map[], [Key1, Key2]) == Outcome(map[], None, [GetCall(Key1), GetCall(Key2)])
  {
    assert [Key1, Key2][1..] == [Key2];
    assert Sweep(map[], map[], [Key2]) == Outcome(map[], None, [GetCall(Key2)]);
  }

  /** StatefulSets whose selector lacks the label key are left alone. */
  lemma ExampleWithoutLabel()
    ensures var objects := map[Key1 := StatefulSet(map["app" := "foo"]), Key2 := StatefulSet(map["app" := "bar"])];
            Sweep(objects, map[], [Key1, Key2]) == Outcome(objects, None, [GetCall(Key1), GetCall(Key2)])
  {
    var objects := map[Key1 := StatefulSet(map["app" := "foo"]), Key2 := StatefulSet(map["app" := "bar"])];
    assert "app" != DeprecatedGardenRole;
    assert [Key1, Key2][1..] == [Key2];
    assert Sweep(objects, map[], [Key2]) == Outcome(objects, None, [GetCall(Key2)]);
  }

  /** StatefulSets whose selector has the label key are deleted, each right after its Get. */
  lemma ExampleWithLabel()
    ensures var sts := StatefulSet(map[DeprecatedGardenRole := "bar"]);
            Sweep(map[Key1 := sts, Key2 := sts], map[], [Key1, Key2])
              == Outcome(map[], None, [GetCall(Key1), DeleteCall(Key1), GetCall(Key2), DeleteCall(Key2)])
  {
    var sts := StatefulSet(map[DeprecatedGardenRole := "bar"]);
    assert [Key1, Key2][1..] == [Key2];
    assert map[Key1 := sts, Key2 := sts] - {Key1} == map[Key2 := sts];
    assert map[Key2 := sts] - {Key2} == map[];
    assert Sweep(map[Key2 := sts], map[], [Key2]) == Outcome(map[], None, [GetCall(Key2), DeleteCall(Key2)]);
  }
}
