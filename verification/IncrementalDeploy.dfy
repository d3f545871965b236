/** The incremental deployment test: cycle k replays the first k deployment tasks over one registry,
    and checks that nothing already deployed is deployed again. */
module IncrementalDeploy {
  import opened Bounds
  import opened Registry

  /** All the requests of some tasks, in order. */
  function Requests(tasks: seq<Task>): Task {
    if tasks == [] then [] else Requests(tasks[..|tasks| - 1]) + tasks[|tasks| - 1]
  }

  function AfterTasks(w: World, tasks: seq<Task>): World {
    AfterTask(w, Requests(tasks))
  }

  // ---------- What requests may ask for ----------

  /** A request that deploys nothing when it is made again. */
  predicate DeploysOnce(q: Request) {
    match q
    case Deploy(_, once) => once
    case Log(_) => false
    case Name(_, _) => true
    case Continue(_) => true
  }

  ghost predicate OnceOnly(task: Task) {
    forall i :: 0 <= i < |task| ==> DeploysOnce(task[i])
  }

  predicate Registers(q: Request, id: string) {
    (q.Deploy? || q.Name?) && q.id == id
  }

  ghost predicate Mentions(task: Task, id: string) {
    exists i :: 0 <= i < |task| && Registers(task[i], id)
  }

  /** No visible name is given to an address other than by deploying to it. */
  ghost predicate NamesHidden(task: Task) {
    forall i :: 0 <= i < |task| && task[i].Name? ==> StartsWith(task[i].id, "~")
  }

  ghost predicate MockFree(task: Task) {
    forall id :: Mentions(task, id) ==> !StartsWith(id, "Mock")
  }

  ghost predicate AllOnce(tasks: seq<Task>) { OnceOnly(Requests(tasks)) }
  ghost predicate AllHidden(tasks: seq<Task>) { NamesHidden(Requests(tasks)) }
  ghost predicate NoMocks(tasks: seq<Task>) { MockFree(Requests(tasks)) }

  /** The hidden name of the access controller is only ever given, never deployed under. */
  ghost predicate NeverDeploysHidden(tasks: seq<Task>) {
    forall i :: 0 <= i < |Requests(tasks)| && Requests(tasks)[i].Deploy? ==> Requests(tasks)[i].id != PRE_DEPLOYED
  }

  // ---------- What requests do to the registry ----------

  /** Addresses in use are those already handed out, and every name has a live one. */
  ghost predicate Wellformed(w: World) {
    && (forall a :: a in w.instances ==> 1 <= a <= w.nonce)
    && (forall id :: id in w.named ==> w.named[id].address != 0 && w.named[id].count >= 1)
  }

  /** Names are kept, and change only by being counted up; instances are only added. */
  ghost predicate Later(w: World, w': World) {
    && Wellformed(w) && Wellformed(w')
    && (forall id :: id in w.named ==>
          id in w'.named && (w'.named[id] == w.named[id] || w'.named[id].count > w.named[id].count))
    && w.instances.Keys <= w'.instances.Keys
  }

  lemma NamedLater(w: World, id: string, addr: Address)
    requires Wellformed(w) && addr != 0
    ensures Later(w, Named(w, id, addr)) && Has(Named(w, id, addr), id)
    ensures CountOf(Named(w, id, addr).named, id) == CountOf(w.named, id) + 1
  {
  }

  lemma DeployedLater(w: World, id: string)
    requires Wellformed(w)
    ensures Later(w, w.(nonce := w.nonce + 1, instances := w.instances[w.nonce + 1 := id]))
    ensures |w.instances[w.nonce + 1 := id]| == |w.instances| + 1
  {
    AddressAdded(w.instances, w.nonce + 1, id);
  }

  lemma RequestLater(w: World, q: Request)
    requires Wellformed(w)
    ensures Later(w, AfterRequest(w, q))
    ensures forall id :: Registers(q, id) ==> Has(AfterRequest(w, q), id)
    ensures |w.instances| + (if DeploysOnce(q) then 0 else 1) <= |AfterRequest(w, q).instances|
  {
    hide Later, Named, Registered, Wellformed;
    StaysLater(w);
    match q
    case Deploy(id, once) => RegisteredLater(w, id);
    case Log(id) => DeployedLater(w, id);
    case Name(id, address) =>
      NamedLater(w, id, address);
      SameInstances(w, id, address);
    case Continue(existing) =>
      var address := if existing != 0 || !Has(w, ACCESS_CONTROLLER) then existing else w.named[ACCESS_CONTROLLER].address;
      if address != 0 {
        NamedLater(w, PRE_DEPLOYED, address);
        SameInstances(w, PRE_DEPLOYED, address);
      }
  }

  lemma RegisteredLater(w: World, id: string)
    requires Wellformed(w)
    ensures
      var w' := Registered(w.(nonce := w.nonce + 1), id, w.nonce + 1);
      Later(w, w') && Has(w', id) && |w'.instances| == |w.instances| + 1
  {
    hide Later, Named, Wellformed, Has;
    var mid := w.(nonce := w.nonce + 1, instances := w.instances[w.nonce + 1 := id]);
    DeployedLater(w, id);
    LaterWellformed(w, mid);
    NamedLater(mid, id, w.nonce + 1);
    LaterTransitive(w, mid, Named(mid, id, w.nonce + 1));
    SameInstances(mid, id, w.nonce + 1);
  }

  lemma SameInstances(w: World, id: string, addr: Address)
    ensures Named(w, id, addr).instances == w.instances && Named(w, id, addr).nonce == w.nonce
  {
  }

  lemma AddressAdded(instances: map<Address, string>, addr: Address, id: string)
    requires addr !in instances
    ensures |instances[addr := id]| == |instances| + 1
  {
  }

  lemma LaterTransitive(a: World, b: World, c: World)
    requires Later(a, b) && Later(b, c)
    ensures Later(a, c)
  {
  }

  lemma StaysLater(w: World)
    requires Wellformed(w)
    ensures Later(w, w)
  {
  }

  lemma LaterWellformed(w: World, w': World)
    requires Later(w, w')
    ensures Wellformed(w) && Wellformed(w')
    ensures forall id :: Has(w, id) ==> Has(w', id)
    ensures forall id :: CountOf(w'.named, id) >= CountOf(w.named, id)
  {
  }

  lemma KeysGrow<T>(a: set<T>, b: set<T>)
    requires a <= b
    ensures |a| <= |b|
    ensures a != b ==> |a| < |b|
  {
    assert b == a + (b - a);
  }

  /** Whatever is requested, the registry only grows; and it grows by an instance if any request is not
      once-only. */
  lemma {:induction false} TaskCounts(w: World, task: Task)
    requires Wellformed(w)
    ensures Later(w, AfterTask(w, task)) && Wellformed(AfterTask(w, task))
    ensures |w.instances| + (if OnceOnly(task) then 0 else 1) <= |AfterTask(w, task).instances|
  {
    hide Later, AfterRequest, Wellformed, DeploysOnce, Has, CountOf;
    if task == [] {
      StaysLater(w);
    } else {
      var init, last := task[..|task| - 1], task[|task| - 1];
      var mid := AfterTask(w, init);
      TaskCounts(w, init);
      RequestLater(mid, last);
      LaterTransitive(w, mid, AfterTask(w, task));
      LaterWellformed(w, AfterTask(w, task));
      assert OnceOnly(init) && DeploysOnce(last) ==> OnceOnly(task);
    }
  }

  lemma {:induction false} TaskRegisters(w: World, task: Task, id: string)
    requires Wellformed(w) && Mentions(task, id)
    ensures Has(AfterTask(w, task), id)
  {
    hide Later, Has, AfterRequest, Wellformed, CountOf, Registers;
    var init, last := task[..|task| - 1], task[|task| - 1];
    var mid := AfterTask(w, init);
    TaskCounts(w, init);
    RequestLater(mid, last);
    if !Registers(last, id) {
      assert Mentions(init, id);
      TaskRegisters(w, init, id);
      LaterWellformed(mid, AfterRequest(mid, last));
    }
  }

  /** A name that is given, rather than deployed under, is counted up by every pass. */
  lemma {:induction false} NamedAgain(w: World, task: Task, i: nat)
    requires Wellformed(w) && i < |task| && task[i].Name?
    ensures CountOf(AfterTask(w, task).named, task[i].id) >= CountOf(w.named, task[i].id) + 1
  {
    hide Later, AfterRequest, Wellformed, CountOf;
    var init, last := task[..|task| - 1], task[|task| - 1];
    var mid := AfterTask(w, init);
    TaskCounts(w, init);
    LaterWellformed(w, mid);
    RequestLater(mid, last);
    LaterWellformed(mid, AfterRequest(mid, last));
    if i == |task| - 1 {
      NamedLater(mid, last.id, last.address);
      assert AfterRequest(mid, last) == Named(mid, last.id, last.address) by { assert last.Name?; NameIs(mid, last); }
    } else {
      NamedAgain(w, init, i);
    }
  }

  lemma NameIs(w: World, q: Request)
    requires q.Name?
    ensures AfterRequest(w, q) == Named(w, q.id, q.address)
  {
  }

  // ---------- Replays ----------

  /** Two registries that agree on all instances and on all visible names, and on which names have an
      address: only what the hidden names stand for may differ. */
  ghost predicate Alike(w: World, w': World) {
    && w.instances == w'.instances && w.nonce == w'.nonce
    && (forall id :: !StartsWith(id, "~") ==>
          (id in w.named <==> id in w'.named) && (id in w.named ==> w.named[id] == w'.named[id]))
    && (forall id :: id != PRE_DEPLOYED ==> (Has(w, id) <==> Has(w', id)))
  }

  lemma AlikeTransitive(a: World, b: World, c: World)
    requires Alike(a, b) && Alike(b, c)
    ensures Alike(a, c)
  {
  }

  /** Making a once-only request again deploys nothing, and leaves all but a given name alone. */
  lemma RequestReplay(w: World, q: Request)
    requires Wellformed(w) && DeploysOnce(q) && forall id :: Registers(q, id) ==> Has(w, id)
    ensures AfterRequest(w, q).instances == w.instances && AfterRequest(w, q).nonce == w.nonce
    ensures (q.Name? ==> StartsWith(q.id, "~")) ==> Alike(w, AfterRequest(w, q))
  {
    match q
    case Deploy(id, _) => assert Registers(q, id);
    case Name(id, _) => assert Registers(q, id);
    case Continue(_) => assert StartsWith(PRE_DEPLOYED, "~");
  }

  lemma {:induction false} TaskReplay(w: World, task: Task)
    requires Wellformed(w) && OnceOnly(task) && forall id :: Mentions(task, id) ==> Has(w, id)
    ensures AfterTask(w, task).instances == w.instances && AfterTask(w, task).nonce == w.nonce
    ensures NamesHidden(task) ==> Alike(w, AfterTask(w, task))
  {
    hide Later, AfterRequest, Wellformed, Has, CountOf, Alike, DeploysOnce, Registers;
    if task == [] {
      AlikeItself(w);
    } else {
      var init, last := task[..|task| - 1], task[|task| - 1];
      var mid := AfterTask(w, init);
      forall id | Mentions(init, id)
        ensures Has(w, id)
      {
        var i :| 0 <= i < |init| && Registers(init[i], id);
        assert Registers(task[i], id);
      }
      TaskReplay(w, init);
      TaskCounts(w, init);
      LaterWellformed(w, mid);
      forall id | Registers(last, id)
        ensures Has(mid, id)
      {
        assert Registers(task[|task| - 1], id);
        assert Mentions(task, id);
      }
      RequestReplay(mid, last);
      if NamesHidden(task) {
        AlikeTransitive(w, mid, AfterTask(w, task));
      }
    }
  }

  /** A second pass of once-only tasks deploys nothing; and if they give no visible name, it leaves
      every visible name as the first pass did. */
  lemma SecondPassChangesNothing(w: World, tasks: seq<Task>)
    requires Wellformed(w) && AllOnce(tasks)
    ensures
      var first, second := AfterTasks(w, tasks), AfterTasks(AfterTasks(w, tasks), tasks);
      second.instances == first.instances && (AllHidden(tasks) ==> Alike(first, second))
  {
    hide Alike;
    var all := Requests(tasks);
    forall id | Mentions(all, id)
      ensures Has(AfterTask(w, all), id)
    {
      TaskRegisters(w, all, id);
    }
    TaskCounts(w, all);
    TaskReplay(AfterTask(w, all), all);
  }

  /** Registries that are alike stay so under any request, except a deployment under the hidden name. */
  lemma AlikeRequest(w: World, w': World, q: Request)
    requires Alike(w, w') && (q.Deploy? ==> q.id != PRE_DEPLOYED)
    ensures Alike(AfterRequest(w, q), AfterRequest(w', q))
  {
    hide Alike, Named;
    match q
    case Deploy(id, once) =>
      AlikeDeployed(w, w', id);
      var v, v' := w.(nonce := w.nonce + 1, instances := w.instances[w.nonce + 1 := id]),
                   w'.(nonce := w'.nonce + 1, instances := w'.instances[w'.nonce + 1 := id]);
      AlikeNamed(v, v', id, w.nonce + 1, w'.nonce + 1);
    case Log(id) => AlikeDeployed(w, w', id);
    case Name(id, address) => AlikeNamed(w, w', id, address, address);
    case Continue(existing) => AlikeContinued(w, w', existing);
  }

  lemma AlikeDeployed(w: World, w': World, id: string)
    requires Alike(w, w')
    ensures w.nonce == w'.nonce
    ensures id != PRE_DEPLOYED ==> (Has(w, id) <==> Has(w', id))
    ensures Alike(w.(nonce := w.nonce + 1, instances := w.instances[w.nonce + 1 := id]),
                  w'.(nonce := w'.nonce + 1, instances := w'.instances[w'.nonce + 1 := id]))
  {
    var v, v' := w.(nonce := w.nonce + 1, instances := w.instances[w.nonce + 1 := id]),
                 w'.(nonce := w'.nonce + 1, instances := w'.instances[w'.nonce + 1 := id]);
    assert forall x :: Has(v, x) == Has(w, x) && Has(v', x) == Has(w', x);
  }

  lemma AlikeNamed(w: World, w': World, id: string, address: LiveAddress, address': LiveAddress)
    requires Alike(w, w') && (StartsWith(id, "~") || address == address')
    ensures Alike(Named(w, id, address), Named(w', id, address'))
  {
    var v, v' := Named(w, id, address), Named(w', id, address');
    forall x | x != PRE_DEPLOYED
      ensures Has(v, x) <==> Has(v', x)
    {
      assert Has(w, x) <==> Has(w', x);
    }
  }

  /** Only the hidden name can move. */
  lemma AlikeContinued(w: World, w': World, existing: Address)
    requires Alike(w, w')
    ensures Alike(AfterRequest(w, Continue(existing)), AfterRequest(w', Continue(existing)))
  {
    assert StartsWith(PRE_DEPLOYED, "~");
    var v, v' := AfterRequest(w, Continue(existing)), AfterRequest(w', Continue(existing));
    forall x | x != PRE_DEPLOYED
      ensures Has(v, x) <==> Has(v', x)
    {
      assert Has(w, x) <==> Has(w', x);
    }
  }

  lemma {:induction false} AlikeTask(w: World, w': World, task: Task)
    requires Alike(w, w') && forall i :: 0 <= i < |task| && task[i].Deploy? ==> task[i].id != PRE_DEPLOYED
    ensures Alike(AfterTask(w, task), AfterTask(w', task))
  {
    hide Alike, AfterRequest;
    if task != [] {
      var init, last := task[..|task| - 1], task[|task| - 1];
      AlikeTask(w, w', init);
      AlikeRequest(AfterTask(w, init), AfterTask(w', init), last);
    }
  }

  /** Every visible name was registered once, and none is a mock. */
  ghost predicate Clean(w: World) {
    forall id :: id in w.named && !StartsWith(id, "~") ==> w.named[id].count == 1 && !StartsWith(id, "Mock")
  }

  lemma {:induction false} TaskStaysClean(w: World, task: Task)
    requires Wellformed(w) && Clean(w) && OnceOnly(task) && NamesHidden(task) && MockFree(task)
    ensures Clean(AfterTask(w, task))
  {
    hide Wellformed, Later;
    if task != [] {
      var init, last := task[..|task| - 1], task[|task| - 1];
      forall id | Mentions(init, id)
        ensures !StartsWith(id, "Mock")
      {
        var i :| 0 <= i < |init| && Registers(init[i], id);
        assert Registers(task[i], id) && Mentions(task, id);
      }
      TaskStaysClean(w, init);
      TaskCounts(w, init);
      RequestStaysClean(AfterTask(w, init), last, task);
    }
  }

  lemma RequestStaysClean(w: World, q: Request, task: Task)
    requires Wellformed(w) && Clean(w) && DeploysOnce(q) && (q.Name? ==> StartsWith(q.id, "~"))
    requires task != [] && q == task[|task| - 1] && MockFree(task)
    ensures Clean(AfterRequest(w, q))
  {
    assert StartsWith(PRE_DEPLOYED, "~");
    if q.Deploy? {
      assert Registers(task[|task| - 1], q.id) && Mentions(task, q.id);
    }
  }

  // ---------- The checks between cycles ----------

  /** No two reports disagree about a listed name. */
  ghost predicate Unchanged(prev: map<string, Address>, next: map<string, Address>) {
    forall key :: key in prev ==> key in next && next[key] == prev[key]
  }

  method CheckUnchanged(prev: map<string, Address>, next: map<string, Address>) returns (same: bool)
    ensures same <==> Unchanged(prev, next)
  {
    same := true;
    var todo := prev.Keys;
    while todo != {}
      invariant todo <= prev.Keys
      invariant same <==> forall key :: key in prev && key !in todo ==> key in next && next[key] == prev[key]
      decreases |todo|
    {
      var key :| key in todo;
      todo := todo - {key};
      if key !in next || next[key] != prev[key] {
        same := false;
      }
    }
  }

  method DetectMock(entries: map<string, Address>) returns (found: bool)
    ensures found <==> exists key :: key in entries && StartsWith(key, "Mock")
  {
    var todo := entries.Keys;
    found := false;
    while todo != {}
      invariant todo <= entries.Keys
      invariant !found && forall key :: key in entries && key !in todo ==> !StartsWith(key, "Mock")
      decreases |todo|
    {
      var key :| key in todo;
      todo := todo - {key};
      if StartsWith(key, "Mock") {
        return true;
      }
    }
  }

  /** If nothing listed is repeated, whatever was listed before is still listed at its address, and
      there are no fewer names or instances: two of the source's checks can never fail. */
  lemma ReportsOnlyGrow(w: World, w': World)
    requires Later(w, w') && Repeated(w'.named) == {}
    ensures Unchanged(Listed(w.named), Listed(w'.named))
    ensures |Listed(w.named)| <= |Listed(w'.named)| && |w.instances| <= |w'.instances|
  {
    forall id | id in Listed(w.named)
      ensures id in Listed(w'.named) && Listed(w'.named)[id] == Listed(w.named)[id]
    {
      assert id !in Repeated(w'.named);
    }
    KeysGrow(Listed(w.named).Keys, Listed(w'.named).Keys);
    KeysGrow(w.instances.Keys, w'.instances.Keys);
  }

  // ---------- The test ----------

  datatype Outcome =
    | Completed
    | MultiDeployment
    | BrokenRegistry
    | Redeployed
    | MockDetected
    | UnexpectedContracts

  /** The registry after some cycles, of which cycle k runs the first k tasks, or all there are. */
  ghost function AfterCycles(start: World, tasks: seq<Task>, cycles: nat): World {
    if cycles == 0 then start
    else AfterTasks(AfterCycles(start, tasks, cycles - 1), tasks[..Min(cycles, |tasks|)])
  }

  lemma {:induction false} CyclesWellformed(start: World, tasks: seq<Task>, cycles: nat)
    requires Wellformed(start)
    ensures Wellformed(AfterCycles(start, tasks, cycles))
  {
    if cycles > 0 {
      CyclesWellformed(start, tasks, cycles - 1);
      TaskCounts(AfterCycles(start, tasks, cycles - 1), Requests(tasks[..Min(cycles, |tasks|)]));
    }
    hide Wellformed, Later;
  }

  /** Replaying in a new cycle what the last cycle ran shows no new instance exactly if all of it is
      once-only. */
  lemma ReplayCheckedIff(start: World, tasks: seq<Task>, done: nat)
    requires Wellformed(start) && 0 < done <= |tasks|
    ensures
      var before := AfterCycles(start, tasks, done);
      |AfterTasks(before, tasks[..done]).instances| == |before.instances| <==> AllOnce(tasks[..done])
  {
    hide Wellformed, Later, AfterTask, OnceOnly, Alike;
    var x, ran := AfterCycles(start, tasks, done - 1), tasks[..done];
    CyclesWellformed(start, tasks, done - 1);
    CyclesWellformed(start, tasks, done);
    TaskCounts(AfterCycles(start, tasks, done), Requests(ran));
    assert AfterCycles(start, tasks, done) == AfterTasks(x, ran);
    if AllOnce(ran) {
      SecondPassChangesNothing(x, ran);
    }
  }

  lemma {:induction false} RequestsOfPrefix(tasks: seq<Task>, done: nat)
    requires done <= |tasks|
    ensures Requests(tasks[..done]) <= Requests(tasks)
    decreases |tasks|
  {
    if done < |tasks| {
      var init := tasks[..|tasks| - 1];
      RequestsOfPrefix(init, done);
      assert init[..done] == tasks[..done];
    } else {
      assert tasks[..done] == tasks;
    }
  }

  lemma PrefixOnce(tasks: seq<Task>, done: nat)
    requires done <= |tasks|
    ensures AllOnce(tasks) ==> AllOnce(tasks[..done])
    ensures AllHidden(tasks) ==> AllHidden(tasks[..done])
    ensures NoMocks(tasks) ==> NoMocks(tasks[..done])
    ensures NeverDeploysHidden(tasks) ==> NeverDeploysHidden(tasks[..done])
  {
    RequestsOfPrefix(tasks, done);
    var part, all := Requests(tasks[..done]), Requests(tasks);
    assert forall i :: 0 <= i < |part| ==> part[i] == all[i];
    if NoMocks(tasks) {
      forall id | Mentions(part, id)
        ensures !StartsWith(id, "Mock")
      {
        var i :| 0 <= i < |part| && Registers(part[i], id);
        assert Registers(all[i], id) && Mentions(all, id);
      }
    }
  }

  lemma {:induction false} AfterConcat(w: World, a: Task, b: Task)
    ensures AfterTask(w, a + b) == AfterTask(AfterTask(w, a), b)
    decreases |b|
  {
    if b == [] {
      assert a + b == a;
    } else {
      assert (a + b)[..|a + b| - 1] == a + b[..|b| - 1];
      AfterConcat(w, a, b[..|b| - 1]);
    }
  }

  lemma OneMoreTask(w: World, tasks: seq<Task>, n: nat)
    requires n < |tasks|
    ensures AfterTasks(w, tasks[..n + 1]) == AfterTask(AfterTasks(w, tasks[..n]), tasks[n])
    ensures Requests(tasks[..n + 1]) == Requests(tasks[..n]) + tasks[n]
  {
    assert tasks[..n + 1][..n] == tasks[..n];
    AfterConcat(w, Requests(tasks[..n]), tasks[n]);
  }

  /** After each cycle but the last, the registry is like that of one pass over the tasks run. */
  lemma {:induction false} CyclesLikeOnePass(start: World, tasks: seq<Task>, done: nat)
    requires Wellformed(start) && done <= |tasks|
    requires AllOnce(tasks) && AllHidden(tasks) && NeverDeploysHidden(tasks)
    ensures Alike(AfterCycles(start, tasks, done), AfterTasks(start, tasks[..done]))
  {
    hide Wellformed, Later, Alike, AfterTask, OnceOnly, NamesHidden, MockFree;
    if done == 0 {
      AlikeItself(start);
      NothingRun(start);
      assert tasks[..0] == [];
    } else {
      var before, n := AfterCycles(start, tasks, done - 1), done - 1;
      CyclesLikeOnePass(start, tasks, n);
      ReplayAlike(start, tasks, n);
      var mid := AfterTasks(before, tasks[..n]);
      assert Alike(mid, AfterTasks(start, tasks[..n])) by {
        AlikeSymmetric(before, mid);
        AlikeTransitive(mid, before, AfterTasks(start, tasks[..n]));
      }
      OneMoreTask(before, tasks, n);
      OneMoreTask(start, tasks, n);
      PrefixOnce(tasks, done);
      LastTaskNeverDeploysHidden(tasks, n);
      AlikeTask(mid, AfterTasks(start, tasks[..n]), tasks[n]);
    }
  }

  lemma LastTaskNeverDeploysHidden(tasks: seq<Task>, n: nat)
    requires n < |tasks| && NeverDeploysHidden(tasks[..n + 1])
    ensures forall i :: 0 <= i < |tasks[n]| && tasks[n][i].Deploy? ==> tasks[n][i].id != PRE_DEPLOYED
  {
    assert tasks[..n + 1][..n] == tasks[..n];
    var all, before := Requests(tasks[..n + 1]), Requests(tasks[..n]);
    assert forall i :: 0 <= i < |tasks[n]| ==> all[|before| + i] == tasks[n][i];
  }

  lemma AlikeItself(w: World)
    ensures Alike(w, w)
  {
  }

  lemma AlikeSymmetric(w: World, w': World)
    requires Alike(w, w')
    ensures Alike(w', w)
  {
  }

  lemma NothingRun(w: World)
    ensures AllOnce([]) && AfterTasks(w, []) == w
  {
  }

  /** Replaying in a new cycle what the last cycle ran. */
  lemma ReplayAlike(start: World, tasks: seq<Task>, done: nat)
    requires Wellformed(start) && done <= |tasks| && AllOnce(tasks) && AllHidden(tasks)
    ensures Alike(AfterCycles(start, tasks, done), AfterTasks(AfterCycles(start, tasks, done), tasks[..done]))
  {
    hide Wellformed, Later, AfterTask, OnceOnly, Alike, NamesHidden, MockFree;
    PrefixOnce(tasks, done);
    if done == 0 {
      assert tasks[..0] == [];
      NothingRun(start);
      AlikeItself(start);
    } else {
      CyclesWellformed(start, tasks, done - 1);
      SecondPassChangesNothing(AfterCycles(start, tasks, done - 1), tasks[..done]);
    }
  }

  /** One more cycle replays everything, and the registry is still like that of one pass. */
  lemma LastCycle(start: World, tasks: seq<Task>)
    requires Wellformed(start) && AllOnce(tasks) && AllHidden(tasks) && NeverDeploysHidden(tasks)
    ensures Alike(AfterCycles(start, tasks, |tasks| + 1), AfterTasks(start, tasks))
  {
    hide Alike, AfterTasks, AllOnce, AllHidden, NeverDeploysHidden;
    var n := |tasks|;
    assert tasks[..n] == tasks;
    CyclesLikeOnePass(start, tasks, n);
    ReplayAlike(start, tasks, n);
    AlikeSymmetric(AfterCycles(start, tasks, n), AfterCycles(start, tasks, n + 1));
    AlikeTransitive(AfterCycles(start, tasks, n + 1), AfterCycles(start, tasks, n), AfterTasks(start, tasks));
  }

  ghost predicate ListsMock(entries: map<string, Address>) {
    exists key :: key in entries && StartsWith(key, "Mock")
  }

  /** The checks of one report, in the order the source makes them. */
  method CheckReport(db: JsonDb, lastEntryMap: map<string, Address>, lastInstanceCount: nat, ghost reported: World,
                     net: Network)
    returns (outcome: Outcome, entryMap: map<string, Address>, instanceCount: nat)
    requires Later(reported, Contents(db, net))
    requires lastEntryMap == Listed(reported.named) && lastInstanceCount == |reported.instances|
    ensures outcome == if Repeated(db.named) != {} then MultiDeployment
                       else if ListsMock(Listed(db.named)) then MockDetected else Completed
    ensures outcome == Completed ==> entryMap == Listed(db.named) && instanceCount == |db.instances|
  {
    hide Later;
    var multiCount;
    entryMap, instanceCount, multiCount := db.PrintContracts();
    if multiCount > 0 {
      return MultiDeployment, entryMap, instanceCount;
    }
    ReportsOnlyGrow(reported, Contents(db, net));
    if lastInstanceCount > instanceCount || |lastEntryMap| > |entryMap| {
      return BrokenRegistry, entryMap, instanceCount;
    }
    var same := CheckUnchanged(lastEntryMap, entryMap);
    if !same {
      return Redeployed, entryMap, instanceCount;
    }
    var mock := DetectMock(entryMap);
    outcome := if mock then MockDetected else Completed;
  }

  /** One cycle: the first maxStep tasks, with a count of the instances before the newest of them. */
  method RunCycle(db: JsonDb, net: Network, tasks: seq<Task>, maxStep: nat, lastInstanceCount: nat, ghost start: World)
    returns (ok: bool, stop: bool, ran: nat)
    requires 1 <= maxStep <= |tasks| + 1 && Wellformed(start)
    requires Contents(db, net) == AfterCycles(start, tasks, maxStep - 1)
    requires maxStep > 1 ==> lastInstanceCount == |db.instances|
    modifies db, net
    ensures ok <==> AllOnce(tasks[..maxStep - 1])
    ensures ok ==> Contents(db, net) == AfterCycles(start, tasks, maxStep)
    ensures ok ==> ran == Min(maxStep, |tasks|) && (stop <==> maxStep == |tasks| + 1)
    ensures Later(old(Contents(db, net)), Contents(db, net))
  {
    hide AfterTask, Later, AllOnce, Wellformed, Requests;
    ghost var before := Contents(db, net);
    ghost var done := maxStep - 1;
    CyclesWellformed(start, tasks, done);
    NothingRun(before);
    assert tasks[..0] == [];
    var step := maxStep;
    stop := true;
    ok := true;
    ran := 0;
    while ran < |tasks|
      invariant 0 <= ran <= |tasks| && step == maxStep - ran >= 1 && stop && ok
      invariant Contents(db, net) == AfterTasks(before, tasks[..ran])
      invariant ran >= done ==> AllOnce(tasks[..done])
    {
      OneMoreTask(before, tasks, ran);
      RunTask(db, net, tasks[ran]);
      ran := ran + 1;
      if step == 2 {
        ReplayCheckedIff(start, tasks, done);
        if lastInstanceCount != db.InstanceCount() {
          ok := false;
          break;
        }
      }
      step := step - 1;
      if step == 0 {
        stop := false;
        break;
      }
    }
    TaskCounts(before, Requests(tasks[..ran]));
  }

  /** A registry whose report has nothing to complain of. */
  ghost predicate Unremarkable(w: World) {
    Repeated(w.named) == {} && !ListsMock(Listed(w.named))
  }

  /** So many cycles went through: no earlier report complained, and none replayed a deployment. */
  ghost predicate Through(start: World, tasks: seq<Task>, cycles: nat) {
    && (forall k :: 0 < k < cycles ==> Unremarkable(AfterCycles(start, tasks, k)))
    && (cycles > 0 ==> AllOnce(tasks[..Min(cycles - 1, |tasks|)]))
  }

  /** Runs the cycles until one of them has no task left to add. The log counts the tasks of each
      cycle. The test completes exactly when every deployment is once-only, no visible name is given
      without one, and none is a mock's. Then cycle k has run the first k tasks and one more cycle has
      replayed them all; and unless something is deployed under the hidden name of the access
      controller, the instances and the visible names are those of one straight pass. The registry is
      never found broken, nor a contract redeployed. It fails after the first cycle that has something to
      fail for: on a visible name registered repeatedly, else on a mock, else, in the cycle after, on a
      replayed task that is not once-only. */
  method TestIncremental(db: JsonDb, net: Network, tasks: seq<Task>) returns (outcome: Outcome, log: seq<nat>)
    modifies db, net
    ensures outcome == Completed <==> AllOnce(tasks) && AllHidden(tasks) && NoMocks(tasks)
    ensures outcome == Completed ==>
              Contents(db, net) == AfterCycles(World(map[], map[], old(net.nonce)), tasks, |tasks| + 1)
    ensures outcome == Completed && NeverDeploysHidden(tasks) ==>
              Alike(Contents(db, net), AfterTasks(World(map[], map[], old(net.nonce)), tasks))
    ensures |log| <= |tasks| + 1 && forall k :: 0 <= k < |log| ==> log[k] == Min(k + 1, |tasks|)
    ensures outcome == Completed ==> |log| == |tasks| + 1
    ensures outcome != BrokenRegistry && outcome != Redeployed
    ensures outcome != Completed ==> 0 < |log| && Through(World(map[], map[], old(net.nonce)), tasks, |log|)
    ensures outcome == MultiDeployment ==> Repeated(Contents(db, net).named) != {}
    ensures outcome == MockDetected ==> Repeated(Contents(db, net).named) == {} && ListsMock(Listed(Contents(db, net).named))
    ensures outcome == MultiDeployment || outcome == MockDetected ==>
              Contents(db, net) == AfterCycles(World(map[], map[], old(net.nonce)), tasks, |log|)
    ensures outcome == UnexpectedContracts ==>
              |log| <= |tasks| && !AllOnce(tasks[..|log|])
              && Unremarkable(AfterCycles(World(map[], map[], old(net.nonce)), tasks, |log|))
  {
    hide Later, AfterTasks, AllOnce, AllHidden, NoMocks, NeverDeploysHidden, AfterCycles, ListsMock, Listed, Repeated,
         Wellformed, Alike, Through, Unremarkable;
    db.Cleanup();
    log := [];
    var lastEntryMap: map<string, Address> := map[];
    var lastInstanceCount := 0;
    var stop := false;
    var maxStep := 1;
    ghost var start := Contents(db, net);
    ghost var reported := start;
    BeforeCycles(start, tasks);
    while true
      invariant start == World(map[], map[], old(net.nonce)) && Wellformed(start)
      invariant 1 <= maxStep <= |tasks| + 2
      invariant stop <==> maxStep == |tasks| + 2
      invariant Contents(db, net) == AfterCycles(start, tasks, maxStep - 1)
      invariant maxStep > 1 ==> Through(start, tasks, maxStep - 1)
      invariant Later(reported, Contents(db, net))
      invariant lastEntryMap == Listed(reported.named) && lastInstanceCount == |reported.instances|
      invariant maxStep == 1 ==> reported == Contents(db, net)
      invariant |log| == maxStep - 1 && forall k :: 0 <= k < |log| ==> log[k] == Min(k + 1, |tasks|)
      decreases |tasks| + 2 - maxStep
    {
      if maxStep > 1 {
        Verdict(start, tasks, maxStep - 1);
        var entryMap, instanceCount;
        outcome, entryMap, instanceCount := CheckReport(db, lastEntryMap, lastInstanceCount, reported, net);
        if outcome != Completed {
          return;
        }
        lastInstanceCount := instanceCount;
        lastEntryMap := entryMap;
        reported := Contents(db, net);
        StaysLater(reported);
        NothingReported(reported);
      }
      if stop {
        ThroughOnce(start, tasks, maxStep - 1);
        break;
      }
      var ok, ran;
      ok, stop, ran := RunCycle(db, net, tasks, maxStep, lastInstanceCount, start);
      if !ok {
        PrefixOnce(tasks, maxStep - 1);
        NothingOnce(tasks);
        return UnexpectedContracts, log;
      }
      OneMoreCycle(start, tasks, maxStep - 1);
      log := log + [ran];
      maxStep := maxStep + 1;
    }
    outcome := Completed;
    if NeverDeploysHidden(tasks) {
      LastCycle(start, tasks);
    }
  }

  lemma NothingReported(w: World)
    requires Repeated(w.named) == {} && !ListsMock(Listed(w.named))
    ensures Unremarkable(w)
  {
  }

  lemma ThroughOnce(start: World, tasks: seq<Task>, cycles: nat)
    requires 0 < cycles && Through(start, tasks, cycles)
    ensures AllOnce(tasks[..Min(cycles - 1, |tasks|)])
  {
  }

  lemma NothingOnce(tasks: seq<Task>)
    ensures AllOnce(tasks[..0])
  {
  }

  lemma OneMoreCycle(start: World, tasks: seq<Task>, cycles: nat)
    requires cycles <= |tasks| && AllOnce(tasks[..cycles])
    requires cycles > 0 ==> Through(start, tasks, cycles) && Unremarkable(AfterCycles(start, tasks, cycles))
    ensures Through(start, tasks, cycles + 1)
  {
  }

  lemma BeforeCycles(start: World, tasks: seq<Task>)
    ensures AfterCycles(start, tasks, 0) == start
    ensures start == World(map[], map[], start.nonce) ==>
              Wellformed(start) && Later(start, start) && Listed(start.named) == map[]
  {
  }

  /** What the report after some cycles can say: nothing, if the tasks are as they should be; and after
      the last cycle, no complaint means that they are. */
  lemma Verdict(start: World, tasks: seq<Task>, cycles: nat)
    requires start == World(map[], map[], start.nonce) && 0 < cycles <= |tasks| + 1
    ensures
      var w := AfterCycles(start, tasks, cycles);
      && Wellformed(w)
      && (AllOnce(tasks) && AllHidden(tasks) && NoMocks(tasks) ==> Repeated(w.named) == {} && !ListsMock(Listed(w.named)))
      && (cycles == |tasks| + 1 && AllOnce(tasks[..cycles - 1]) && Repeated(w.named) == {} && !ListsMock(Listed(w.named)) ==>
            AllOnce(tasks) && AllHidden(tasks) && NoMocks(tasks))
  {
    hide AfterTasks, AfterTask, Later;
    var w := AfterCycles(start, tasks, cycles);
    CyclesWellformed(start, tasks, cycles);
    if AllOnce(tasks) && AllHidden(tasks) && NoMocks(tasks) {
      CyclesClean(start, tasks, cycles);
    }
    if cycles == |tasks| + 1 {
      assert tasks[..cycles - 1] == tasks;
      LastReport(start, tasks);
    }
  }

  lemma {:induction false} CyclesClean(start: World, tasks: seq<Task>, cycles: nat)
    requires start == World(map[], map[], start.nonce)
    requires AllOnce(tasks) && AllHidden(tasks) && NoMocks(tasks)
    ensures Clean(AfterCycles(start, tasks, cycles))
  {
    hide AfterTask, OnceOnly, NamesHidden, MockFree;
    if cycles > 0 {
      var done := Min(cycles, |tasks|);
      CyclesClean(start, tasks, cycles - 1);
      CyclesWellformed(start, tasks, cycles - 1);
      PrefixOnce(tasks, done);
      TaskStaysClean(AfterCycles(start, tasks, cycles - 1), Requests(tasks[..done]));
    }
  }

  /** The report after the last cycle finds every visible name that is given, and every mock. */
  lemma LastReport(start: World, tasks: seq<Task>)
    requires Wellformed(start)
    ensures
      var w := AfterCycles(start, tasks, |tasks| + 1);
      Repeated(w.named) == {} && !ListsMock(Listed(w.named)) ==> AllHidden(tasks) && NoMocks(tasks)
  {
    hide AfterTask, Later;
    var n, all := |tasks|, Requests(tasks);
    var w := AfterCycles(start, tasks, n + 1);
    assert tasks[..n] == tasks;
    CyclesWellformed(start, tasks, n);
    CyclesWellformed(start, tasks, n + 1);
    var before := AfterCycles(start, tasks, n);
    assert w == AfterTask(before, all);
    if !AllHidden(tasks) {
      var i :| 0 <= i < |all| && all[i].Name? && !StartsWith(all[i].id, "~");
      NamedAgain(before, all, i);
      NamedBefore(start, tasks, all[i].id);
      assert all[i].id in Repeated(w.named);
    } else if !NoMocks(tasks) {
      var id :| Mentions(all, id) && StartsWith(id, "Mock");
      TaskRegisters(before, all, id);
      assert id[0] == 'M';
      assert id in Repeated(w.named) || id in Listed(w.named);
    }
  }

  /** Before the last cycle, every name the tasks mention is registered. */
  lemma NamedBefore(start: World, tasks: seq<Task>, id: string)
    requires Wellformed(start) && Mentions(Requests(tasks), id)
    ensures CountOf(AfterCycles(start, tasks, |tasks|).named, id) >= 1
  {
    hide AfterTask, Later;
    var n := |tasks|;
    assert tasks[..n] == tasks && n > 0;
    CyclesWellformed(start, tasks, n - 1);
    CyclesWellformed(start, tasks, n);
    TaskRegisters(AfterCycles(start, tasks, n - 1), Requests(tasks), id);
  }

  // ---------- Why only alike ----------

  /** A deployment that first looks for an earlier access controller and then deploys one. */
  const STARTING: Task := [Continue(0), Deploy(ACCESS_CONTROLLER, true)]

  /** The registry of a completed test is not that of one pass to the last entry: the replay has found
      the access controller and given it its hidden name, which one pass never does. */
  lemma ReplayNamesHidden(start: World)
    requires start.named == map[]
    ensures PRE_DEPLOYED in AfterCycles(start, [STARTING], 2).named
    ensures PRE_DEPLOYED !in AfterTasks(start, [STARTING]).named
  {
    var tasks := [STARTING];
    var w := AfterRequest(start, STARTING[1]);
    assert tasks[..1] == tasks && tasks[..0] == [] && Requests(tasks) == [] + STARTING == STARTING;
    PassOfTwo(start, STARTING);
    PassOfTwo(w, STARTING);
    assert AfterCycles(start, tasks, 1) == AfterTasks(start, tasks) == w;
    assert AfterCycles(start, tasks, 2) == AfterTasks(w, tasks);
  }

  lemma PassOfTwo(w: World, task: Task)
    requires |task| == 2
    ensures AfterTask(w, task) == AfterRequest(AfterRequest(w, task[0]), task[1])
  {
    assert task[..1] == [task[0]] && task[..1][..0] == [];
    assert AfterTask(w, task[..1]) == AfterRequest(AfterTask(w, []), task[0]);
  }

  /** So a contract deployed once under that very name is deployed by one pass and attached to by the
      test: here the test ends with one instance, and one pass with two. */
  lemma HiddenDeploymentSkipped(start: World)
    requires start.named == map[] && start.instances == map[]
    ensures |AfterCycles(start, [STARTING, [Deploy(PRE_DEPLOYED, true)]], 3).instances| == 1
    ensures |AfterTasks(start, [STARTING, [Deploy(PRE_DEPLOYED, true)]]).instances| == 2
  {
    var tasks: seq<Task> := [STARTING, [Deploy(PRE_DEPLOYED, true)]];
    assert tasks[..1] == [STARTING] && tasks[..2] == tasks && [STARTING][..0] == [];
    assert Requests([STARTING]) == [] + STARTING == STARTING;
    assert Requests(tasks) == STARTING + [Deploy(PRE_DEPLOYED, true)];
    var first := AfterTask(start, STARTING);
    FirstStart(start);
    assert AfterCycles(start, tasks, 1) == first;
    assert AfterCycles(start, tasks, 2) == AfterTasks(first, tasks);
    assert AfterCycles(start, tasks, 3) == AfterTasks(AfterTasks(first, tasks), tasks);
    hide AfterTask, AfterCycles, Requests;
    StartAndDeploy(start, tasks);
    AddressAdded(first.instances, first.nonce + 1, PRE_DEPLOYED);
    StartAndDeploy(first, tasks);
    LaterStart(first);
    StartAndDeploy(AfterTasks(first, tasks), tasks);
    LaterStart(AfterTasks(first, tasks));
  }

  lemma FirstStart(w: World)
    requires w.named == map[] && w.instances == map[]
    ensures AfterTask(w, STARTING) == Registered(w.(nonce := w.nonce + 1), ACCESS_CONTROLLER, w.nonce + 1)
    ensures |AfterTask(w, STARTING).instances| == 1
  {
    PassOfTwo(w, STARTING);
    AddressAdded(w.instances, w.nonce + 1, ACCESS_CONTROLLER);
  }

  /** Later starts deploy nothing and name what they find. */
  lemma LaterStart(w: World)
    requires Has(w, ACCESS_CONTROLLER)
    ensures AfterTask(w, STARTING) == Named(w, PRE_DEPLOYED, w.named[ACCESS_CONTROLLER].address)
    ensures Has(AfterTask(w, STARTING), PRE_DEPLOYED) && Has(AfterTask(w, STARTING), ACCESS_CONTROLLER)
  {
    PassOfTwo(w, STARTING);
  }

  lemma StartAndDeploy(w: World, tasks: seq<Task>)
    requires Requests(tasks) == STARTING + [Deploy(PRE_DEPLOYED, true)]
    ensures AfterTasks(w, tasks) == AfterRequest(AfterTask(w, STARTING), Deploy(PRE_DEPLOYED, true))
  {
    AfterConcat(w, STARTING, [Deploy(PRE_DEPLOYED, true)]);
    assert [Deploy(PRE_DEPLOYED, true)][..0] == [];
  }
}
