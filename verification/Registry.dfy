/** The driver's list of services, their index by name, and its two totals. */
module Registry {
  import opened MachineInt
  import opened LinberTypes
  import opened RbTree
  import opened Protocol
  import opened Invariants
  import opened Runs
  import opened UriOrder
  import opened UriIndex
  import opened Service

  datatype Registration = Registered(service: Service) | AlreadyExists

  /** The sum of what the services may have of workers. */
  function TotalWorkers(services: seq<Service>): nat {
    if services == [] then 0 else TotalWorkers(services[..|services| - 1]) + services[|services| - 1].maxWorkers
  }

  /** It is a sum: of one service its own, of two lists that of both. */
  lemma {:induction false} TotalIsSum(a: seq<Service>, b: seq<Service>)
    ensures TotalWorkers(a + b) == TotalWorkers(a) + TotalWorkers(b)
    ensures |b| == 1 ==> TotalWorkers(b) == b[0].maxWorkers
  {
    if b == [] {
      assert a + b == a;
    } else {
      var n := |b| - 1;
      assert (a + b)[..|a + b| - 1] == a + b[..n];
      TotalIsSum(a, b[..n]);
    }
  }

  lemma {:induction false} TotalWithout(services: seq<Service>, i: nat)
    requires i < |services|
    ensures TotalWorkers(services[..i] + services[i + 1..]) == TotalWorkers(services) - services[i].maxWorkers
  {
    var n := |services| - 1;
    var rest := services[..i] + services[i + 1..];
    if i < n {
      TotalWithout(services[..n], i);
      assert rest[..|rest| - 1] == services[..n][..i] + services[..n][i + 1..];
    } else {
      assert rest == services[..n];
    }
  }

  /** List and index hold the same services, each once and under its own name. */
  ghost predicate Agree(services: seq<Service>, names: map<Uri, Service>) {
    && (forall i :: 0 <= i < |services| ==> services[i].uri in names && names[services[i].uri] == services[i])
    && (forall u :: u in names ==> names[u].uri == u && names[u] in services)
    && (forall i, j :: 0 <= i < j < |services| ==> services[i] != services[j])
  }

  lemma AgreeWith(services: seq<Service>, names: map<Uri, Service>, service: Service)
    requires Agree(services, names) && service.uri !in names
    ensures Agree(services + [service], names[service.uri := service])
  {
    var now, names' := services + [service], names[service.uri := service];
    assert now[|services|] == service;
    assert forall i :: 0 <= i < |services| ==> now[i] == services[i];
  }

  lemma AgreeWithout(services: seq<Service>, names: map<Uri, Service>, i: nat)
    requires Agree(services, names) && i < |services|
    ensures Agree(services[..i] + services[i + 1..], names - {services[i].uri})
    ensures services[i] !in services[..i] + services[i + 1..]
  {
    var rest := services[..i] + services[i + 1..];
    assert forall k :: 0 <= k < |rest| ==> rest[k] == services[if k < i then k else k + 1];
    forall k | 0 <= k < |rest| ensures rest[k].uri in names && names[rest[k].uri] == rest[k] && rest[k] != services[i] {
      assert rest[k] == services[if k < i then k else k + 1];
    }
    forall u | u in names && u != services[i].uri ensures names[u] in rest {
      StillThere(services, i, names[u]);
    }
  }

  lemma StillThere<T>(q: seq<T>, i: nat, x: T)
    requires i < |q| && x in q && x != q[i]
    ensures x in q[..i] + q[i + 1..]
  {
    assert q == q[..i] + [q[i]] + q[i + 1..];
  }

  lemma OthersStillThere(services: seq<Service>, i: nat)
    requires i < |services| && services[i] !in services[..i] + services[i + 1..]
    ensures forall s :: s in services[..i] + services[i + 1..] <==> s in services && s != services[i]
  {
    forall s | s in services && s != services[i] ensures s in services[..i] + services[i + 1..] {
      StillThere(services, i, s);
    }
  }

  /** A name is free in the index exactly when no service has it. */
  lemma NameTaken(services: seq<Service>, names: map<Uri, Service>, uri: Uri)
    requires Agree(services, names)
    ensures uri in names <==> exists s :: s in services && s.uri == uri
  {
  }

  class Linber {
    const index: UriIndex<Service>
    var services: seq<Service>
    var servicesCount: u32
    var maxWorking: u32
    ghost var names: map<Uri, Service>

    ghost predicate Valid()
      reads this, index, index.root, Nodes(index.root.shape)
    {
      && index.Valid() && index.Index() == names && Agree(services, names)
      && servicesCount == Wrap32(|services|) && maxWorking == Wrap32(TotalWorkers(services))
    }

    ghost function Footprint(): set<object>
      reads this, index, index.root
    {
      {this} + index.Footprint()
    }

    constructor ()
      ensures Valid() && services == [] && names == map[] && fresh(Footprint()) && HostsAll({})
    {
      index := new UriIndex();
      services, servicesCount, maxWorking, names := [], 0, 0, map[];
    }

    /** findService */
    method FindService(uri: Uri) returns (found: Option<Service>)
      requires Valid()
      ensures Valid()
      ensures found == if uri in names then Some(names[uri]) else None
    {
      hide Wired, Nodes, Sorted, ToMap, Containers, Refs, Agree;
      found := index.Get(uri);
    }

    /** linber_register_service: look whether the name is free, and create the service. */
    method RegisterService(uri: Uri, token: u64, ghost base: u64, maxWorkers: u32) returns (r: Registration)
      requires Valid()
      modifies Footprint()
      ensures Valid()
      ensures r == AlreadyExists <==> exists s :: s in old(services) && s.uri == uri
      ensures r == AlreadyExists ==> services == old(services) && Footprint() == old(Footprint())
      ensures r.Registered? ==>
        && services == old(services) + [r.service]
        && r.service.uri == uri && r.service.token == token && r.service.maxWorkers == maxWorkers
        && fresh(r.service.Footprint()) && r.service.Valid() && r.service.state == Init(base, maxWorkers) && !r.service.mutexHeld
    {
      hide Inv, IsRun, Wired, Nodes, Sorted, ToMap, Containers, Refs, Agree, Init, TotalWorkers, Wrap32, Service.Valid;
      NameTaken(services, names, uri);
      assert allocated(Nodes(index.root.shape));
      var found := FindService(uri);
      if found.Some? {
        return AlreadyExists;
      }
      var service := CreateService(uri, token, base, maxWorkers);
      r := Registered(service);
    }

    /** create_service for a name that is free. The service's token is drawn at random. */
    method CreateService(uri: Uri, token: u64, ghost base: u64, maxWorkers: u32) returns (service: Service)
      requires Valid() && uri !in names
      modifies Footprint()
      ensures Valid() && services == old(services) + [service] && names == old(names)[uri := service]
      ensures service.uri == uri && service.token == token && service.maxWorkers == maxWorkers
      ensures fresh(service.Footprint()) && service.Valid() && service.state == Init(base, maxWorkers) && !service.mutexHeld
      ensures Footprint() !! service.Footprint() && fresh(Footprint() - old(Footprint()))
    {
      hide Inv, IsRun, Wired, Nodes, Sorted, ToMap, Containers, Refs, Agree, Init, TotalWorkers, Wrap32, Service.Valid;
      assert allocated(Nodes(index.root.shape));
      ghost var own := Footprint();
      service := new Service(uri, token, base, maxWorkers);
      assert Footprint() == own && own !! service.Footprint();
      assert allocated(Nodes(service.requests.root.shape)) && allocated(service.all);
      label Made:
      var ok := Enter(service);
      forall o | o in Footprint() && o !in own ensures fresh(o) && o !in service.Footprint() {
        assert fresh@Made(o);
      }
    }

    /** The region of create_service under the driver's mutex; false when the name is taken. */
    method Enter(service: Service) returns (ok: bool)
      requires Valid()
      modifies Footprint()
      ensures Valid()
      ensures ok <==> service.uri !in old(names)
      ensures services == if ok then old(services) + [service] else old(services)
      ensures names == if ok then old(names)[service.uri := service] else old(names)
      ensures servicesCount == if ok then (old(servicesCount) + 1) % 4_294_967_296 else old(servicesCount)
      ensures maxWorking == if ok then (old(maxWorking) + service.maxWorkers) % 4_294_967_296 else old(maxWorking)
      ensures fresh(Footprint() - old(Footprint()))
    {
      hide Inv, Wired, Nodes, Sorted, ToMap, Containers, Refs, Agree, TotalWorkers;
      ok := index.Insert(service.uri, service, true);
      if ok {
        AgreeWith(services, names, service);
        TotalWith(services, service);
        services, names := services + [service], names[service.uri := service];
        servicesCount := Wrap32(servicesCount + 1);
        maxWorking := Wrap32(maxWorking + service.maxWorkers);
      }
    }

    lemma TotalWith(services: seq<Service>, service: Service)
      ensures TotalWorkers(services + [service]) == TotalWorkers(services) + service.maxWorkers
      ensures Wrap32(Wrap32(|services|) + 1) == Wrap32(|services + [service]|)
      ensures Wrap32(Wrap32(TotalWorkers(services)) + service.maxWorkers) == Wrap32(TotalWorkers(services + [service]))
    {
      assert (services + [service])[..|services|] == services;
      Wrap32Sum(|services|, 1);
      Wrap32Sum(TotalWorkers(services), service.maxWorkers);
    }

    /** clean_service: take the service out of the list, the index and the totals. */
    method Clean(service: Service)
      requires Valid() && service in services
      modifies Footprint()
      ensures Valid() && names == old(names) - {service.uri}
      ensures servicesCount == (old(servicesCount) - 1) % 4_294_967_296
      ensures maxWorking == (old(maxWorking) - service.maxWorkers) % 4_294_967_296
      ensures Nodes(index.root.shape) <= old(Nodes(index.root.shape))
      ensures forall s :: s in services <==> s in old(services) && s != service
      ensures exists i :: 0 <= i < |old(services)| && services == old(services)[..i] + old(services)[i + 1..]
    {
      hide Inv, Wired, Nodes, Sorted, ToMap, Containers, Refs, Agree, TotalWorkers;
      var i := 0;
      while services[i] != service
        invariant 0 <= i < |services| && service in services[i..]
        decreases |services| - i
      {
        i := i + 1;
      }
      AgreeWithout(services, names, i);
      OthersStillThere(services, i);
      CountsWithout(services, i);
      var removed := index.Remove(service.uri);
      services, names := services[..i] + services[i + 1..], names - {service.uri};
      servicesCount := Wrap32(servicesCount - 1);
      maxWorking := Wrap32(maxWorking - service.maxWorkers);
    }

    lemma CountsWithout(services: seq<Service>, i: nat)
      requires i < |services|
      ensures var rest := services[..i] + services[i + 1..];
        && Wrap32(Wrap32(|services|) - 1) == Wrap32(|rest|)
        && Wrap32(Wrap32(TotalWorkers(services)) - services[i].maxWorkers) == Wrap32(TotalWorkers(rest))
    {
      TotalWithout(services, i);
      Wrap32Sum(|services|, -1);
      Wrap32Sum(TotalWorkers(services), 0 - services[i].maxWorkers);
    }

    /** A service of this driver that is registered as long as it has not been cleaned. */
    ghost predicate Hosts(service: Service)
      reads this, service, service.slots, service.requests, service.requests.root, Nodes(service.requests.root.shape), service.all
    {
      service.Valid() && (service in services <==> service.state.cleanups == 0)
    }

    /** The driver's services, past and present: each is listed exactly as long as it has not
        been cleaned, and no two share anything. */
    ghost predicate HostsAll(hosted: set<Service>)
      reads *
    {
      && (forall s :: s in services ==> s in hosted)
      && (forall s :: s in hosted ==> Hosts(s) && Footprint() !! s.Footprint())
      && (forall s, t :: s in hosted && t in hosted && s != t ==> s.Footprint() !! t.Footprint())
    }

    /** A new service among all others: they stay as they were. */
    method CreateAmong(uri: Uri, token: u64, ghost base: u64, maxWorkers: u32, ghost hosted: set<Service>) returns (service: Service)
      requires Valid() && HostsAll(hosted) && uri !in names
      modifies Footprint()
      ensures Valid() && HostsAll(hosted + {service}) && services == old(services) + [service]
      ensures names == old(names)[uri := service] && service.token == token && service.maxWorkers == maxWorkers
      ensures fresh(service.Footprint()) && service.state == Init(base, maxWorkers) && !service.mutexHeld
      ensures fresh(Footprint() - old(Footprint()))
      ensures forall s :: s in hosted ==> s.state == old(s.state)
    {
      hide Inv, Wired, Nodes, Sorted, ToMap, Containers, Refs, Agree, TotalWorkers, Wrap32, IsRun, Apply, Enabled, Promised,
        Service.Valid, Linber.Valid, Service.Took;
      OwnAllocated(hosted);
      service := CreateService(uri, token, base, maxWorkers);
      forall s | s in hosted
        ensures Hosts(s) && s.Footprint() == old(s.Footprint()) && s.state == old(s.state)
        ensures Footprint() !! s.Footprint() && service.Footprint() !! s.Footprint()
      {
        assert old(Hosts(s)) && s.state == old(s.state) && (s in services <==> s in old(services));
        assert s.Valid();
      }
      assert Hosts(service);
      NowHostsAll(hosted, service);
    }

    lemma NowHostsAll(hosted: set<Service>, service: Service)
      requires forall s :: s in services ==> s in hosted || s == service
      requires forall s :: s in hosted ==> Hosts(s) && Footprint() !! s.Footprint() && service.Footprint() !! s.Footprint()
      requires forall s, t :: s in hosted && t in hosted && s != t ==> s.Footprint() !! t.Footprint()
      requires Hosts(service) && Footprint() !! service.Footprint()
      ensures HostsAll(hosted + {service})
    {
      hide Hosts, Footprint, Service.Footprint;
    }

    /** destroy_service on a service that has not been cleaned. */
    method BringDown(service: Service)
      requires Valid() && Hosts(service) && !service.mutexHeld && service.state.cleanups == 0
      requires Footprint() !! service.Footprint()
      modifies Footprint(), service.Footprint()
      ensures Valid() && Hosts(service) && service.Took(Protocol.Event.Destroy)
      ensures Footprint() <= old(Footprint()) && service.Footprint() <= old(service.Footprint())
      ensures forall s :: s != service ==> (s in services <==> s in old(services))
    {
      hide Inv, Wired, Nodes, Sorted, ToMap, Containers, Refs, Agree, TotalWorkers, Wrap32, IsRun, Apply, Enabled, Promised;
      assert allocated(Nodes(index.root.shape)) && allocated(Nodes(service.requests.root.shape));
      var last := service.Destroy();
      assert Valid();
      if last {
        Clean(service);
      }
    }

    /** The same beside other services: they stay as they were. */
    method BringDownBeside(service: Service, ghost hosted: set<Service>)
      requires Valid() && HostsAll(hosted) && service in hosted && !service.mutexHeld && service.state.cleanups == 0
      modifies Footprint(), service.Footprint()
      ensures Valid() && Hosts(service) && service.Took(Protocol.Event.Destroy)
      ensures Footprint() <= old(Footprint()) && service.Footprint() <= old(service.Footprint())
      ensures forall s :: s != service ==> (s in services <==> s in old(services))
      ensures forall s :: s in hosted && s != service ==> s.Valid() && s.Footprint() == old(s.Footprint()) && s.state == old(s.state)
    {
      hide Inv, Wired, Nodes, Sorted, ToMap, Containers, Refs, Agree, TotalWorkers, Wrap32, IsRun, Apply, Enabled, Promised,
        Service.Valid, Linber.Valid, Service.Took;
      OwnAllocated(hosted);
      BringDown(service);
      forall s | s in hosted && s != service
        ensures s.Valid() && s.Footprint() == old(s.Footprint()) && s.state == old(s.state)
      {
        assert old(Hosts(s));
      }
    }

    /** So all stay hosted. */
    method BringDownOne(service: Service, ghost hosted: set<Service>)
      requires Valid() && HostsAll(hosted) && service in hosted && !service.mutexHeld && service.state.cleanups == 0
      modifies Footprint(), service.Footprint()
      ensures Valid() && HostsAll(hosted) && service.Took(Protocol.Event.Destroy)
      ensures forall s :: s in hosted && s != service ==> s.state == old(s.state) && (s in services <==> s in old(services))
    {
      hide Inv, Wired, Nodes, Sorted, ToMap, Containers, Refs, Agree, TotalWorkers, Wrap32, IsRun, Apply, Enabled, Promised,
        Service.Valid, Linber.Valid, Service.Took, Service.Footprint, Linber.Footprint;
      BringDownBeside(service, hosted);
      forall s | s in hosted && s != service
        ensures Hosts(s) && Footprint() !! s.Footprint() && service.Footprint() !! s.Footprint()
      {
        assert old(Hosts(s)) && (s in services <==> s in old(services));
      }
      NowHostsAll(hosted - {service}, service);
      assert hosted - {service} + {service} == hosted;
    }

    /** linber_destroy_service; with no worker left the service goes at once. */
    method DestroyService(uri: Uri, token: u64, ghost hosted: set<Service>) returns (ok: bool)
      requires Valid() && HostsAll(hosted)
      requires uri in names ==> !names[uri].mutexHeld
      modifies Footprint(), if uri in names then names[uri].Footprint() else {}
      ensures Valid() && HostsAll(hosted)
      ensures ok <==> uri in old(names) && old(names)[uri].token == token && old(names)[uri].maxWorkers > 0
      ensures ok ==> old(names)[uri].Took(Protocol.Event.Destroy)
      ensures forall s :: s in hosted && !(ok && s == old(names)[uri]) ==>
        s.state == old(s.state) && (s in services <==> s in old(services))
    {
      hide Inv, Wired, Nodes, Sorted, ToMap, Containers, Refs, Agree, TotalWorkers, Wrap32, IsRun, Apply, Enabled, Promised,
        Service.Valid;
      OwnAllocated(hosted);
      NamesListed();
      var found := FindService(uri);
      if found.None? || found.value.token != token || found.value.maxWorkers == 0 {
        return false;
      }
      assert HostsAll(hosted);
      BringDownOne(found.value, hosted);
      return true;
    }

    /** Service_check_alive, and the cleanup by the last worker. */
    method CheckAndLeave(service: Service, w: nat) returns (alive: bool)
      requires Valid() && Hosts(service) && !service.mutexHeld && service.state.cleanups == 0
      requires Enabled(service.state, Protocol.Event.CheckAlive(w)) && Footprint() !! service.Footprint()
      modifies Footprint(), service
      ensures Valid() && Hosts(service) && service.Took(Protocol.Event.CheckAlive(w))
      ensures Footprint() <= old(Footprint()) && service.Footprint() == old(service.Footprint())
      ensures forall s :: s != service ==> (s in services <==> s in old(services))
      ensures alive == !old(service.destroyMe)
    {
      hide Inv, Wired, Nodes, Sorted, ToMap, Containers, Refs, Agree, TotalWorkers, Wrap32, IsRun, Apply, Enabled, Promised;
      assert allocated(Nodes(index.root.shape)) && allocated(Nodes(service.requests.root.shape));
      var last;
      alive, last := service.CheckAlive(w);
      assert Valid();
      if last {
        Clean(service);
      }
    }

    /** The same among all services: the last worker to leave takes its service out, and the
        others stay as they were. */
    method WorkerChecks(service: Service, w: nat, ghost hosted: set<Service>) returns (alive: bool)
      requires Valid() && HostsAll(hosted) && service in hosted && !service.mutexHeld && service.state.cleanups == 0
      requires Enabled(service.state, Protocol.Event.CheckAlive(w))
      modifies Footprint(), service
      ensures Valid() && HostsAll(hosted) && service.Took(Protocol.Event.CheckAlive(w))
      ensures forall s :: s in hosted && s != service ==> s.state == old(s.state) && (s in services <==> s in old(services))
      ensures alive == !old(service.destroyMe)
    {
      hide Inv, Wired, Nodes, Sorted, ToMap, Containers, Refs, Agree, TotalWorkers, Wrap32, IsRun, Apply, Enabled, Promised,
        Service.Valid, Linber.Valid, Service.Took;
      OwnAllocated(hosted);
      alive := CheckAndLeave(service, w);
      forall s | s in hosted && s != service
        ensures Hosts(s) && s.Footprint() == old(s.Footprint()) && s.state == old(s.state)
        ensures Footprint() !! s.Footprint() && service.Footprint() !! s.Footprint()
      {
        assert old(Hosts(s)) && s.state == old(s.state) && (s in services <==> s in old(services));
        assert s.Valid();
      }
      NowHostsAll(hosted - {service}, service);
      assert hosted - {service} + {service} == hosted;
    }

    lemma NamesListed()
      requires Valid()
      ensures forall u :: u in names ==> names[u] in services
    {
    }

    lemma OwnAllocated(hosted: set<Service>)
      ensures forall s :: s in hosted ==> allocated(Nodes(s.requests.root.shape))
    {
      forall s | s in hosted ensures allocated(Nodes(s.requests.root.shape)) {
        ItsOwnAllocated(s);
      }
    }

    lemma ItsOwnAllocated(s: Service)
      ensures allocated(Nodes(s.requests.root.shape))
    {
    }
  }
}
