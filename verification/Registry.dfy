/** The registry of deployed contracts: instances by address, and named entries that count how often
    a name was registered. */
module Registry {

  /** Zero stands for the zero address and for a missing one. */
  type Address = nat

  datatype NamedEntry = NamedEntry(address: Address, count: nat)

  datatype Option<+T> = None | Some(value: T)

  /** The registry's contents and the number of contracts ever deployed, as a value. */
  datatype World = World(instances: map<Address, string>, named: map<string, NamedEntry>, nonce: nat)

  predicate StartsWith(s: string, prefix: string) {
    prefix <= s
  }

  function CountOf(named: map<string, NamedEntry>, id: string): nat {
    if id in named then named[id].count else 0
  }

  // ---------- What a step can ask for ----------

  /** The market's access controller, and the hidden name under which a continued deployment finds it. */
  const ACCESS_CONTROLLER := "MarketAccessController"
  const PRE_DEPLOYED := "~MarketAccessController"

  type LiveAddress = a: Address | a != 0 witness 1

  /** A deployment under a name, with once only if the name has no address yet; a deployment logged
      without a name; a name given to a live address without any deployment; and the look for a
      configured or earlier access controller with which a deployment starts. */
  datatype Request =
    | Deploy(id: string, once: bool)
    | Log(id: string)
    | Name(id: string, address: LiveAddress)
    | Continue(existing: Address)

  type Task = seq<Request>

  predicate Has(w: World, id: string) {
    id in w.named && w.named[id].address != 0
  }

  function Named(w: World, id: string, addr: Address): World {
    w.(named := w.named[id := NamedEntry(addr, CountOf(w.named, id) + 1)])
  }

  function Registered(w: World, id: string, addr: Address): World {
    Named(w.(instances := w.instances[addr := id]), id, addr)
  }

  /** A fresh contract gets the next address. */
  function AfterRequest(w: World, q: Request): World {
    match q
    case Deploy(id, once) =>
      if once && Has(w, id) then w else Registered(w.(nonce := w.nonce + 1), id, w.nonce + 1)
    case Log(id) => w.(nonce := w.nonce + 1, instances := w.instances[w.nonce + 1 := id])
    case Name(id, address) => Named(w, id, address)
    case Continue(existing) =>
      if existing != 0 then Named(w, PRE_DEPLOYED, existing)
      else if Has(w, ACCESS_CONTROLLER) then Named(w, PRE_DEPLOYED, w.named[ACCESS_CONTROLLER].address)
      else w
  }

  function AfterTask(w: World, task: Task): World {
    if task == [] then w else AfterRequest(AfterTask(w, task[..|task| - 1]), task[|task| - 1])
  }

  // ---------- The report ----------

  /** A report lists a name singly unless it is hidden by a tilde or registered repeatedly. */
  predicate IsListed(named: map<string, NamedEntry>, id: string) {
    id in named && !StartsWith(id, "~") && named[id].count <= 1
  }

  predicate IsRepeated(named: map<string, NamedEntry>, id: string) {
    id in named && !StartsWith(id, "~") && named[id].count > 1
  }

  function Listed(named: map<string, NamedEntry>): map<string, Address> {
    map id | id in named && IsListed(named, id) :: named[id].address
  }

  function Repeated(named: map<string, NamedEntry>): set<string> {
    set id | id in named && IsRepeated(named, id)
  }

  class JsonDb {
    var instances: map<Address, string>
    var named: map<string, NamedEntry>

    constructor ()
      ensures instances == map[] && named == map[]
    {
      instances, named := map[], map[];
    }

    method Cleanup()
      modifies this
      ensures instances == map[] && named == map[]
    {
      instances := map[];
      named := map[];
    }

    /** Logs the instance; a registration also counts up the name and moves it to the address. */
    method AddContractAddr(contractId: string, contractAddr: Address, register: bool)
      modifies this
      ensures instances == old(instances)[contractAddr := contractId]
      ensures named == if register
                       then old(named)[contractId := NamedEntry(contractAddr, CountOf(old(named), contractId) + 1)]
                       else old(named)
    {
      instances := instances[contractAddr := contractId];
      if register {
        var count := if contractId in named then named[contractId].count else 0;
        named := named[contractId := NamedEntry(contractAddr, count + 1)];
      }
    }

    /** Names an address without logging an instance; every call counts the name up. */
    method AddNamed(contractId: string, contractAddress: Address)
      modifies this`named
      ensures named == old(named)[contractId := NamedEntry(contractAddress, CountOf(old(named), contractId) + 1)]
    {
      var count := if contractId in named then named[contractId].count else 0;
      named := named[contractId := NamedEntry(contractAddress, 1 + count)];
    }

    function Get(id: string): (r: Option<NamedEntry>)
      reads this
      ensures r.None? <==> id !in named
      ensures r.Some? ==> id in named && r.value == named[id]
    {
      if id in named then Some(named[id]) else None
    }

    function InstanceCount(): nat
      reads this
    {
      |instances|
    }

    /** Lists the names: hidden ones are skipped, repeated ones are only counted. */
    method PrintContracts() returns (entryMap: map<string, Address>, instanceCount: nat, multiCount: nat)
      ensures entryMap == Listed(named)
      ensures instanceCount == |instances|
      ensures multiCount == |Repeated(named)|
    {
      var todo := named.Keys;
      multiCount := 0;
      entryMap := map[];
      ghost var repeated: set<string> := {};
      while todo != {}
        invariant todo <= named.Keys
        invariant forall id :: id in repeated <==> IsRepeated(named, id) && id !in todo
        invariant multiCount == |repeated|
        invariant forall id :: id in entryMap <==> IsListed(named, id) && id !in todo
        invariant forall id :: id in entryMap ==> entryMap[id] == named[id].address
        decreases |todo|
      {
        var key :| key in todo;
        var value := named[key];
        todo := todo - {key};
        if StartsWith(key, "~") {
        } else if value.count > 1 {
          multiCount := multiCount + 1;
          repeated := repeated + {key};
        } else {
          entryMap := entryMap[key := value.address];
        }
      }
      assert repeated == Repeated(named);
      instanceCount := |instances|;
    }
  }

  /** Where contracts come to live: every deployment gets an address never used before. */
  class Network {
    var nonce: nat

    constructor ()
      ensures nonce == 0
    {
      nonce := 0;
    }

    method Deploy() returns (addr: Address)
      modifies this
      ensures nonce == old(nonce) + 1 && addr == nonce
    {
      nonce := nonce + 1;
      addr := nonce;
    }
  }

  ghost function Contents(db: JsonDb, net: Network): World
    reads db, net
  {
    World(db.instances, db.named, net.nonce)
  }

  method WithSaveAndVerify(db: JsonDb, net: Network, instance: Address, id: string)
    modifies db
    ensures Contents(db, net) == Registered(old(Contents(db, net)), id, instance)
  {
    db.AddContractAddr(id, instance, true);
  }

  /** Attaches to the registered contract when asked to deploy once, and deploys otherwise. */
  method WithSaveAndVerifyOnce(db: JsonDb, net: Network, id: string, once: bool) returns (addr: Address)
    modifies db, net
    ensures Contents(db, net) == AfterRequest(old(Contents(db, net)), Deploy(id, once))
    ensures Has(Contents(db, net), id) && addr == db.named[id].address
    ensures once && Has(old(Contents(db, net)), id) ==>
              db.named == old(db.named) && db.instances == old(db.instances) && net.nonce == old(net.nonce)
    ensures !once || !Has(old(Contents(db, net)), id) ==>
              db.instances == old(db.instances)[addr := id] && addr == net.nonce == old(net.nonce) + 1
              && db.named == old(db.named)[id := NamedEntry(addr, CountOf(old(db.named), id) + 1)]
  {
    if once {
      var entry := db.Get(id);
      addr := if entry.Some? then entry.value.address else 0;
      if addr != 0 {
        return;
      }
    }
    addr := net.Deploy();
    WithSaveAndVerify(db, net, addr, id);
  }

  /** Logs a deployed contract without naming it. */
  method WithVerify(db: JsonDb, net: Network, id: string) returns (addr: Address)
    modifies db, net
    ensures Contents(db, net) == AfterRequest(old(Contents(db, net)), Log(id))
    ensures db.named == old(db.named) && db.instances == old(db.instances)[addr := id]
    ensures addr == net.nonce == old(net.nonce) + 1
  {
    addr := net.Deploy();
    db.AddContractAddr(id, addr, false);
  }

  /** Looks for a configured or an earlier access controller and names it, anew at every call. */
  method SetPreDeployAccessController(db: JsonDb, net: Network, existingProvider: Address)
    returns (continuation: bool, provider: Option<Address>)
    modifies db
    ensures Contents(db, net) == AfterRequest(old(Contents(db, net)), Continue(existingProvider))
    ensures continuation <==> existingProvider == 0 && Has(old(Contents(db, net)), ACCESS_CONTROLLER)
    ensures provider.Some? <==> existingProvider != 0 || continuation
    ensures provider.Some? ==> Has(Contents(db, net), PRE_DEPLOYED) && db.named[PRE_DEPLOYED].address == provider.value
    ensures provider.Some? ==>
              provider.value == if existingProvider != 0 then existingProvider else old(db.named)[ACCESS_CONTROLLER].address
    ensures db.instances == old(db.instances)
    ensures forall id | id != PRE_DEPLOYED ::
              (id in db.named <==> id in old(db.named)) && (id in db.named ==> db.named[id] == old(db.named)[id])
  {
    if existingProvider != 0 {
      db.AddNamed(PRE_DEPLOYED, existingProvider);
      return false, Some(existingProvider);
    }
    var entry := db.Get(ACCESS_CONTROLLER);
    if entry.Some? && entry.value.address != 0 {
      db.AddNamed(PRE_DEPLOYED, entry.value.address);
      return true, Some(entry.value.address);
    }
    return false, None;
  }

  method RunRequest(db: JsonDb, net: Network, q: Request)
    modifies db, net
    ensures Contents(db, net) == AfterRequest(old(Contents(db, net)), q)
  {
    match q
    case Deploy(id, once) => var _ := WithSaveAndVerifyOnce(db, net, id, once);
    case Log(id) => var _ := WithVerify(db, net, id);
    case Name(id, address) => db.AddNamed(id, address);
    case Continue(existing) => var _, _ := SetPreDeployAccessController(db, net, existing);
  }

  method RunTask(db: JsonDb, net: Network, task: Task)
    modifies db, net
    ensures Contents(db, net) == AfterTask(old(Contents(db, net)), task)
  {
    ghost var before := Contents(db, net);
    assert task[..|task|] == task;
    for i := 0 to |task|
      invariant Contents(db, net) == AfterTask(before, task[..i])
    {
      assert task[..i + 1][..i] == task[..i];
      RunRequest(db, net, task[i]);
    }
  }
}
