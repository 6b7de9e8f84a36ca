/**
 * The sequential parts of the player's decorator helpers: the memoizing
 * cache, the runtime argument type check, and the lock naming and lazy
 * per-object lock registry behind synchronized methods. Acquiring and
 * releasing locks is not modelled; a lock is an object identity only.
 */
module Decorators {
  import opened Wrappers

  // ---------------------------------------------------------------------------
  // memoize

  /**
   * One call of a memoized callable with cache `cache`: the cache afterwards
   * and the value returned. `key` stands for `str(args) + str(kwargs)` and
   * `body` for the wrapped callable.
   */
  function MemoCall<A, R>(cache: map<string, R>, key: A -> string, body: A -> R, args: A): (out: (map<string, R>, R))
    ensures key(args) in out.0 && out.1 == out.0[key(args)]
    ensures out.0.Keys == cache.Keys + {key(args)}
    ensures forall k :: k in cache ==> out.0[k] == cache[k]
    ensures key(args) in cache ==> out.1 == cache[key(args)]
    ensures key(args) !in cache ==> out.1 == body(args)
  {
    var k := key(args);
    if k in cache then (cache, cache[k]) else (cache[k := body(args)], body(args))
  }

  /** A run of calls, oldest first: the final cache and the value each call returned. */
  function MemoRun<A, R>(cache: map<string, R>, key: A -> string, body: A -> R, calls: seq<A>): (out: (map<string, R>, seq<R>))
    ensures |out.1| == |calls|
    decreases |calls|
  {
    if |calls| == 0 then (cache, [])
    else
      var first := MemoCall(cache, key, body, calls[0]);
      var rest := MemoRun(first.0, key, body, calls[1..]);
      (rest.0, [first.1] + rest.1)
  }

  /** The cache only grows: an entry, once stored, is never overwritten or removed. */
  lemma {:induction false} RunOnlyGrows<A, R>(cache: map<string, R>, key: A -> string, body: A -> R, calls: seq<A>)
    ensures var after := MemoRun(cache, key, body, calls).0;
            forall k :: k in cache ==> k in after && after[k] == cache[k]
    decreases |calls|
  {
    if |calls| > 0 {
      var first := MemoCall(cache, key, body, calls[0]);
      RunOnlyGrows(first.0, key, body, calls[1..]);
    }
  }

  /** The keys of the final cache are those present before and those of the calls. */
  lemma {:induction false} RunKeys<A, R>(cache: map<string, R>, key: A -> string, body: A -> R, calls: seq<A>)
    ensures var after := MemoRun(cache, key, body, calls).0;
            forall k :: k in after <==> k in cache || exists i :: 0 <= i < |calls| && key(calls[i]) == k
    decreases |calls|
  {
    if |calls| > 0 {
      var first := MemoCall(cache, key, body, calls[0]);
      RunKeys(first.0, key, body, calls[1..]);
      var after := MemoRun(cache, key, body, calls).0;
      forall k | k in after
        ensures k in cache || exists i :: 0 <= i < |calls| && key(calls[i]) == k
      {
        if k !in cache && k != key(calls[0]) {
          var i :| 0 <= i < |calls[1..]| && key(calls[1..][i]) == k;
          assert key(calls[i + 1]) == k;
        }
      }
      forall k | k in cache || exists i :: 0 <= i < |calls| && key(calls[i]) == k
        ensures k in after
      {
        if k !in cache && k != key(calls[0]) {
          var i :| 0 <= i < |calls| && key(calls[i]) == k;
          assert i > 0 && key(calls[1..][i - 1]) == k;
        }
      }
    }
  }

  /** Every call returns what the final cache holds for its key. */
  lemma {:induction false} RunReturnsFinalEntry<A, R>(cache: map<string, R>, key: A -> string, body: A -> R, calls: seq<A>, t: nat)
    requires t < |calls|
    ensures var out := MemoRun(cache, key, body, calls);
            key(calls[t]) in out.0 && out.1[t] == out.0[key(calls[t])]
    decreases |calls|
  {
    var first := MemoCall(cache, key, body, calls[0]);
    if t == 0 {
      RunOnlyGrows(first.0, key, body, calls[1..]);
    } else {
      RunReturnsFinalEntry(first.0, key, body, calls[1..], t - 1);
    }
  }

  /** Calls whose keys are equal share one entry: they return the same value. */
  lemma SameKeySameResult<A, R>(cache: map<string, R>, key: A -> string, body: A -> R, calls: seq<A>, i: nat, j: nat)
    requires i < |calls| && j < |calls| && key(calls[i]) == key(calls[j])
    ensures MemoRun(cache, key, body, calls).1[i] == MemoRun(cache, key, body, calls).1[j]
  {
    RunReturnsFinalEntry(cache, key, body, calls, i);
    RunReturnsFinalEntry(cache, key, body, calls, j);
  }

  /**
   * The first call with a key that is not yet cached runs the body, and that
   * value is what every later call with the same key gets.
   */
  lemma {:induction false} FirstCallComputes<A, R>(cache: map<string, R>, key: A -> string, body: A -> R, calls: seq<A>, i: nat)
    requires i < |calls| && key(calls[i]) !in cache
    requires forall l :: 0 <= l < i ==> key(calls[l]) != key(calls[i])
    ensures MemoRun(cache, key, body, calls).1[i] == body(calls[i])
    decreases |calls|
  {
    if i > 0 {
      var first := MemoCall(cache, key, body, calls[0]);
      forall l | 0 <= l < i - 1
        ensures key(calls[1..][l]) != key(calls[1..][i - 1])
      {
        assert calls[1..][l] == calls[l + 1];
      }
      FirstCallComputes(first.0, key, body, calls[1..], i - 1);
    }
  }

  /** Arguments that print differently, such as (1, 2) and (2, 1), are computed and stored separately. */
  lemma DistinctKeysComputeSeparately<A, R>(key: A -> string, body: A -> R, a: A, b: A)
    requires key(a) != key(b)
    ensures MemoRun(map[], key, body, [a, b]) == (map[key(a) := body(a), key(b) := body(b)], [body(a), body(b)])
  {
    var once := MemoCall(map[], key, body, a);
    var twice := MemoCall(once.0, key, body, b);
    assert [a, b][1..] == [b] && [b][1..] == [];
    assert MemoRun(twice.0, key, body, []) == (twice.0, []);
    assert [twice.1] + [] == [twice.1];
    assert MemoRun(once.0, key, body, [b]) == (twice.0, [twice.1]);
    assert [once.1] + [twice.1] == [once.1, twice.1];
    assert twice.0 == map[key(a) := body(a), key(b) := body(b)];
  }

  /** Arguments that print identically share one entry; the second call gets the first's value. */
  lemma EqualKeysShareEntry<A, R>(key: A -> string, body: A -> R, a: A, b: A)
    requires key(a) == key(b)
    ensures MemoRun(map[], key, body, [a, b]) == (map[key(a) := body(a)], [body(a), body(a)])
  {
    var once := MemoCall(map[], key, body, a);
    var twice := MemoCall(once.0, key, body, b);
    assert [a, b][1..] == [b] && [b][1..] == [];
    assert MemoRun(twice.0, key, body, []) == (twice.0, []);
    assert [twice.1] + [] == [twice.1];
    assert MemoRun(once.0, key, body, [b]) == (twice.0, [twice.1]);
    assert [once.1] + [twice.1] == [once.1, twice.1];
    assert twice == (map[key(a) := body(a)], body(a));
  }

  /** The final cache of a run extended by one call is that call applied to the run's cache. */
  lemma {:induction false} RunAppend<A, R>(cache: map<string, R>, key: A -> string, body: A -> R, calls: seq<A>, x: A)
    ensures MemoRun(cache, key, body, calls + [x]).0 == MemoCall(MemoRun(cache, key, body, calls).0, key, body, x).0
    decreases |calls|
  {
    if |calls| > 0 {
      var first := MemoCall(cache, key, body, calls[0]);
      assert (calls + [x])[1..] == calls[1..] + [x];
      RunAppend(first.0, key, body, calls[1..], x);
    }
  }

  /** The decorated callable with its cache, `obj.cache`. */
  class Memoizer<A, R> {
    const key: A -> string
    const body: A -> R
    var cache: map<string, R>
    /** The arguments the body has been run on, oldest first. */
    var evaluated: seq<A>

    /** The cache is what the body's runs stored, and the body ran at most once per key. */
    ghost predicate Valid()
      reads this
    {
      && cache == MemoRun(map[], key, body, evaluated).0
      && forall i, j :: 0 <= i < j < |evaluated| ==> key(evaluated[i]) != key(evaluated[j])
    }

    constructor (key: A -> string, body: A -> R)
      ensures Valid() && this.key == key && this.body == body
      ensures cache == map[] && evaluated == []
    {
      this.key := key;
      this.body := body;
      this.cache := map[];
      this.evaluated := [];
    }

    /** `memoizer(*args, **kwargs)`: return the cached value for the key, computing and storing it on a miss. */
    method Call(args: A) returns (r: R)
      requires Valid()
      modifies this
      ensures Valid()
      ensures (cache, r) == MemoCall(old(cache), key, body, args)
      ensures evaluated == old(evaluated) + if key(args) in old(cache) then [] else [args]
    {
      var k := key(args);
      if k !in cache {
        RunAppend(map[], key, body, evaluated, args);
        RunKeys(map[], key, body, evaluated);
        forall i | 0 <= i < |evaluated|
          ensures key(evaluated[i]) != k
        {
          assert key(evaluated[i]) in cache;
        }
        cache := cache[k := body(args)];
        evaluated := evaluated + [args];
      }
      r := cache[k];
    }
  }

  /** Two calls with equal keys: the second returns the first's value and does not run the body. */
  method CallTwice<A, R>(m: Memoizer<A, R>, a: A, b: A) returns (first: R, second: R)
    requires m.Valid() && m.key(a) == m.key(b)
    modifies m
    ensures m.Valid() && first == second
    ensures |m.evaluated| <= |old(m.evaluated)| + 1
  {
    first := m.Call(a);
    second := m.Call(b);
  }

  // ---------------------------------------------------------------------------
  // typechecked

  /** An entry of `__annotations__`: a type (`isinstance(annotation, type)`) or anything else. */
  datatype Annotation<T> = TypeAnnotation(t: T) | OtherAnnotation

  /** The outcome of the wrapper: the target is called with the arguments, or a TypeError names a parameter. */
  datatype CheckResult<V> = CallTarget(args: seq<V>, kwargs: map<string, V>) | TypeError(name: string)

  /**
   * The value checked for slot `k` of `co_varnames`: positional when `k` is
   * below the number of positional arguments, else the keyword argument of
   * that name, else none (the slot is skipped).
   */
  function SlotValue<V>(varnames: seq<string>, k: nat, args: seq<V>, kwargs: map<string, V>): (v: Option<V>)
    requires k < |varnames|
    ensures k < |args| ==> v == Some(args[k])
    ensures k >= |args| && varnames[k] in kwargs ==> v == Some(kwargs[varnames[k]])
    ensures k >= |args| && varnames[k] !in kwargs ==> v.None?
  {
    if k < |args| then Some(args[k])
    else if varnames[k] in kwargs then Some(kwargs[varnames[k]])
    else None
  }

  /** Slot `k` has a type annotation and a supplied value that is not an instance of it. */
  predicate Mismatch<V, T>(varnames: seq<string>, annotations: map<string, Annotation<T>>, isInstance: (V, T) -> bool,
                           args: seq<V>, kwargs: map<string, V>, k: nat)
    requires k < |varnames|
    ensures Mismatch(varnames, annotations, isInstance, args, kwargs, k) ==>
              && varnames[k] in annotations && annotations[varnames[k]].TypeAnnotation?
              && SlotValue(varnames, k, args, kwargs).Some?
  {
    var name := varnames[k];
    var v := SlotValue(varnames, k, args, kwargs);
    && name in annotations && annotations[name].TypeAnnotation?
    && v.Some? && !isInstance(v.value, annotations[name].t)
  }

  /** The first mismatching slot at or after `from`. */
  function FirstMismatch<V, T>(varnames: seq<string>, annotations: map<string, Annotation<T>>, isInstance: (V, T) -> bool,
                               args: seq<V>, kwargs: map<string, V>, from: nat): (m: Option<nat>)
    requires from <= |varnames|
    ensures m.Some? ==> from <= m.value < |varnames| && Mismatch(varnames, annotations, isInstance, args, kwargs, m.value)
    ensures m.Some? ==> forall j :: from <= j < m.value ==> !Mismatch(varnames, annotations, isInstance, args, kwargs, j)
    ensures m.None? ==> forall j :: from <= j < |varnames| ==> !Mismatch(varnames, annotations, isInstance, args, kwargs, j)
    decreases |varnames| - from
  {
    if from == |varnames| then None
    else if Mismatch(varnames, annotations, isInstance, args, kwargs, from) then Some(from)
    else FirstMismatch(varnames, annotations, isInstance, args, kwargs, from + 1)
  }

  /**
   * What the wrapper does: a TypeError naming the first mismatching slot if
   * there is one, and otherwise a call of the target with the arguments as
   * they were given.
   */
  function Check<V, T>(varnames: seq<string>, annotations: map<string, Annotation<T>>, isInstance: (V, T) -> bool,
                       args: seq<V>, kwargs: map<string, V>): (r: CheckResult<V>)
    ensures r.CallTarget? <==> forall k :: 0 <= k < |varnames| ==> !Mismatch(varnames, annotations, isInstance, args, kwargs, k)
    ensures r.CallTarget? ==> r.args == args && r.kwargs == kwargs
    ensures r.TypeError? ==> exists k :: 0 <= k < |varnames| && r.name == varnames[k]
                                      && Mismatch(varnames, annotations, isInstance, args, kwargs, k)
                                      && forall j :: 0 <= j < k ==> !Mismatch(varnames, annotations, isInstance, args, kwargs, j)
  {
    match FirstMismatch(varnames, annotations, isInstance, args, kwargs, 0)
    case None => CallTarget(args, kwargs)
    case Some(k) => TypeError(varnames[k])
  }

  /** `typechecked`'s wrapper: walk the slots of `co_varnames`, failing on the first annotated mismatch. */
  method TypeChecked<V, T>(varnames: seq<string>, annotations: map<string, Annotation<T>>, isInstance: (V, T) -> bool,
                           args: seq<V>, kwargs: map<string, V>) returns (result: CheckResult<V>)
    ensures result == Check(varnames, annotations, isInstance, args, kwargs)
  {
    var i := 0;
    while i < |varnames|
      invariant 0 <= i <= |varnames|
      invariant forall j :: 0 <= j < i ==> !Mismatch(varnames, annotations, isInstance, args, kwargs, j)
    {
      var name := varnames[i];
      if name in annotations && annotations[name].TypeAnnotation? {
        var value: Option<V>;
        if i < |args| {
          value := Some(args[i]);
        } else if name in kwargs {
          value := Some(kwargs[name]);
        } else {
          value := None;
        }
        if value.Some? && !isInstance(value.value, annotations[name].t) {
          assert Mismatch(varnames, annotations, isInstance, args, kwargs, i);
          return TypeError(name);
        }
      }
      i := i + 1;
    }
    return CallTarget(args, kwargs);
  }

  /** Slots without a type annotation never cause an error. */
  lemma UnannotatedNeverFails<V, T>(varnames: seq<string>, annotations: map<string, Annotation<T>>, isInstance: (V, T) -> bool,
                                    args: seq<V>, kwargs: map<string, V>)
    requires forall k :: 0 <= k < |varnames| ==> varnames[k] !in annotations || annotations[varnames[k]].OtherAnnotation?
    ensures Check(varnames, annotations, isInstance, args, kwargs) == CallTarget(args, kwargs)
  {
  }

  /** Python values and types enough for the example below. */
  datatype PyValue = PyInt(i: int) | PyStr(s: string)
  datatype PyType = IntType | StrType

  predicate PyIsInstance(v: PyValue, t: PyType) {
    match t
    case IntType => v.PyInt?
    case StrType => v.PyStr?
  }

  /** `fn(a: int)`: `fn("x")` and `fn(a="x")` raise a TypeError for "a"; `fn(1)` calls the target. */
  lemma IntParameterExample()
    ensures Check(["a"], map["a" := TypeAnnotation(IntType)], PyIsInstance, [PyStr("x")], map[]) == TypeError("a")
    ensures Check(["a"], map["a" := TypeAnnotation(IntType)], PyIsInstance, [], map["a" := PyStr("x")]) == TypeError("a")
    ensures Check(["a"], map["a" := TypeAnnotation(IntType)], PyIsInstance, [PyInt(1)], map[]) == CallTarget([PyInt(1)], map[])
  {
    assert Mismatch(["a"], map["a" := TypeAnnotation(IntType)], PyIsInstance, [PyStr("x")], map[], 0);
    assert Mismatch(["a"], map["a" := TypeAnnotation(IntType)], PyIsInstance, [], map["a" := PyStr("x")], 0);
    assert !Mismatch(["a"], map["a" := TypeAnnotation(IntType)], PyIsInstance, [PyInt(1)], map[], 0);
  }

  // ---------------------------------------------------------------------------
  // synchronized_method: lock names and the per-object lock registry

  /** A re-entrant lock; only its identity matters here. */
  class RLock {
    constructor () {}
  }

  /** The name generated for a method's lock: `'__' + method_name + '_lock__'`. */
  function GeneratedLockName(methodName: string): (name: string)
    ensures |name| == |methodName| + 9
    ensures name[..2] == "__" && name[2..|name| - 7] == methodName && name[|name| - 7..] == "_lock__"
  {
    "__" + methodName + "_lock__"
  }

  /** Distinct methods get distinct generated lock names. */
  lemma GeneratedLockNameInjective(m1: string, m2: string)
    requires GeneratedLockName(m1) == GeneratedLockName(m2)
    ensures m1 == m2
  {
    var n := GeneratedLockName(m1);
    assert m1 == n[2..|n| - 7];
  }

  /** The lock name used: `lock_name` when it is a string (`Some`), else the generated one. */
  function LockName(lockName: Option<string>, methodName: string): (name: string)
    ensures lockName.Some? ==> name == lockName.value
    ensures lockName.None? ==> name == GeneratedLockName(methodName)
  {
    match lockName
    case Some(s) => s
    case None => GeneratedLockName(methodName)
  }

  /** `getattr(self, name, None)`: a missing attribute and one set to None both give none. */
  function LookupLock(attributes: map<string, RLock?>, name: string): (lock: Option<RLock>)
    ensures lock.Some? <==> name in attributes && attributes[name] != null
    ensures lock.Some? ==> lock.value == attributes[name]
  {
    if name in attributes && attributes[name] != null then Some(attributes[name]) else None
  }

  /** The attributes after a get-or-create of lock `name`, with `created` the lock a miss would make. */
  function RegisterLock(attributes: map<string, RLock?>, name: string, created: RLock): (after: map<string, RLock?>)
    ensures LookupLock(after, name) == Some(if LookupLock(attributes, name).Some? then LookupLock(attributes, name).value else created)
    ensures LookupLock(attributes, name).Some? ==> after == attributes
    ensures after.Keys == attributes.Keys + {name}
    ensures forall other :: other in attributes && other != name ==> after[other] == attributes[other]
  {
    if LookupLock(attributes, name).Some? then attributes else attributes[name := created]
  }

  /** A second get-or-create of the same name changes nothing and returns the same lock. */
  lemma RegisterIdempotent(attributes: map<string, RLock?>, name: string, c1: RLock, c2: RLock)
    ensures var once := RegisterLock(attributes, name, c1);
            RegisterLock(once, name, c2) == once && LookupLock(once, name) == LookupLock(RegisterLock(once, name, c2), name)
  {
  }

  /** Two methods whose lock names agree (an explicit shared name, say) resolve to one lock. */
  lemma SameNameSameLock(attributes: map<string, RLock?>, l1: Option<string>, m1: string, l2: Option<string>, m2: string,
                         c1: RLock, c2: RLock)
    requires LockName(l1, m1) == LockName(l2, m2)
    ensures var a1 := RegisterLock(attributes, LockName(l1, m1), c1);
            var a2 := RegisterLock(a1, LockName(l2, m2), c2);
            a2 == a1 && LookupLock(a2, LockName(l2, m2)) == LookupLock(a1, LockName(l1, m1))
  {
  }

  /** Two differently named methods without explicit names, each creating its lock, get distinct locks. */
  lemma DistinctMethodsDistinctLocks(attributes: map<string, RLock?>, m1: string, m2: string, c1: RLock, c2: RLock)
    requires m1 != m2 && c1 != c2
    requires LookupLock(attributes, GeneratedLockName(m1)).None? && LookupLock(attributes, GeneratedLockName(m2)).None?
    ensures var a1 := RegisterLock(attributes, LockName(None, m1), c1);
            var a2 := RegisterLock(a1, LockName(None, m2), c2);
            LookupLock(a2, LockName(None, m1)) == Some(c1) && LookupLock(a2, LockName(None, m2)) == Some(c2)
  {
    if GeneratedLockName(m1) == GeneratedLockName(m2) {
      GeneratedLockNameInjective(m1, m2);
    }
  }

  /** The object a synchronized method is called on, with the attributes its lock names refer to. */
  class LockOwner {
    var attributes: map<string, RLock?>

    constructor ()
      ensures attributes == map[]
    {
      attributes := map[];
    }

    /** Return the lock stored as attribute `name`, creating and storing a new one when there is none. */
    method GetOrCreateLock(name: string) returns (lock: RLock)
      modifies this
      ensures attributes == RegisterLock(old(attributes), name, lock)
      ensures LookupLock(old(attributes), name).Some? ==> lock == LookupLock(old(attributes), name).value
      ensures LookupLock(old(attributes), name).None? ==> fresh(lock)
    {
      var existing := LookupLock(attributes, name);
      if existing.Some? {
        lock := existing.value;
      } else {
        lock := new RLock();
        attributes := attributes[name := lock];
      }
    }
  }

  /** The lock a call of a synchronized method resolves, before acquiring it. */
  method MethodLock(self: LockOwner, lockName: Option<string>, methodName: string) returns (lock: RLock)
    modifies self
    ensures self.attributes == RegisterLock(old(self.attributes), LockName(lockName, methodName), lock)
    ensures LookupLock(self.attributes, LockName(lockName, methodName)) == Some(lock)
    ensures LookupLock(old(self.attributes), LockName(lockName, methodName)).None? ==> fresh(lock)
  {
    lock := self.GetOrCreateLock(LockName(lockName, methodName));
  }
}
