/** `asyncPool(concurrency, items, iteratorFn)`: starts one task per item in
    input order, keeps the started-but-unsettled ones in `executing`, and
    whenever `executing` holds `concurrency` or more of them waits for the
    first of them to settle (`Promise.race`). The event loop is replaced by
    a sequential state machine: the task that wins a race is chosen by the
    environment (a nondeterministic choice), and a task's outcome is the
    value `worker(item)`. */
module Pool {
  import opened Common

  function Max(a: int, b: int): int {
    if a < b then b else a
  }

  /** Runs the pool. `started` is how many workers were invoked (always a
      prefix of `items`); `peak` is the largest size `executing` reached. */
  method AsyncPool<T, R, E>(concurrency: int, items: seq<T>, worker: T -> Result<R, E>)
    returns (r: Result<seq<R>, E>, started: nat, peak: nat)
    ensures started <= |items|
    ensures peak <= Max(concurrency, 1)
    ensures |items| > 0 ==> peak >= 1
    ensures r.Ok? <==> forall i | 0 <= i < |items| :: worker(items[i]).Ok?
    ensures r.Ok? ==>
      (started == |items| && |r.value| == |items|
       && forall i | 0 <= i < |items| :: r.value[i] == worker(items[i]).value)
    ensures r.Err? ==> exists i | 0 <= i < started :: worker(items[i]) == Err(r.error)
    ensures started < |items| ==> r.Err?
  {
    var ret: seq<Result<R, E>> := [];
    var executing: set<nat> := {};
    started, peak := 0, 0;
    while started < |items|
      invariant started <= |items| && |ret| == started
      invariant forall j | 0 <= j < started :: ret[j] == worker(items[j])
      invariant forall j | j in executing :: j < started
      invariant |executing| < Max(concurrency, 1)
      invariant |executing| <= peak <= Max(concurrency, 1)
      invariant started > 0 ==> peak >= 1
    {
      // const p = Promise.resolve().then(() => iteratorFn(item, iterable))
      var p := worker(items[started]);
      ret := ret + [p];
      assert started !in executing;
      executing := executing + {started};
      peak := Max(peak, |executing|);
      if |executing| >= concurrency {
        // await Promise.race(executing): the environment picks the task that
        // settles first, and its `clean` callback removes it from `executing`
        var first :| first in executing;
        executing := executing - {first};
        if ret[first].Err? {
          // the race rejects, and so does the pool
          return Err(ret[first].error), started + 1, peak;
        }
      }
      started := started + 1;
    }
    // return Promise.all(ret)
    if j :| 0 <= j < |ret| && ret[j].Err? {
      // the first rejection to happen, which the environment decides
      r := Err(ret[j].error);
    } else {
      r := Ok(seq(|ret|, i requires 0 <= i < |ret| => ret[i].value));
    }
  }
}
