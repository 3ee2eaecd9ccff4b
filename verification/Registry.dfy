/** Service registration: names, their virtual addresses and the pool behind them. */
module Registry {
  import opened Common
  import opened IPPools
  import opened Joining

  /** A service; the virtual address is None where the caller leaves it to the pool. */
  datatype Service = Service(name: string, namespace: string, virtualIP: Option<IPv4>, port: int)

  function FullName(name: string, namespace: string): string {
    name + "." + if namespace == "" then "default" else namespace
  }

  /** Two services share a full name exactly if they are the same, an empty namespace counting as "default", or a
      dot inside a name can be read as the one between name and namespace. */
  lemma FullNamesIff(a: string, b: string, c: string, d: string)
    ensures var x, y := if b == "" then "default" else b, if d == "" then "default" else d;
            FullName(a, b) == FullName(c, d) <==> (a == c && x == y) || Shifted(a, x, c, y, '.') || Shifted(c, y, a, x, '.')
  {
    var x, y := if b == "" then "default" else b, if d == "" then "default" else d;
    JoinSameIff(a, x, c, y, '.');
    assert FullName(a, b) == Join(a, '.', x) && FullName(c, d) == Join(c, '.', y);
  }

  /** Names without a dot are kept apart by their namespaces. */
  lemma PlainNamesDiffer(a: string, b: string, c: string, d: string)
    requires '.' !in a && '.' !in c && b != "" && d != ""
    ensures FullName(a, b) == FullName(c, d) <==> a == c && b == d
  {
    JoinUnique(a, b, c, d, '.');
    assert FullName(a, b) == Join(a, '.', b) && FullName(c, d) == Join(c, '.', d);
  }

  ghost predicate Injective(vips: map<string, IPv4>) {
    forall m, n :: m in vips && n in vips && vips[m] == vips[n] ==> m == n
  }

  /** Every registered name has one address, no two names share one, and the pool knows them all. */
  ghost predicate Consistent(services: map<string, Service>, vips: map<string, IPv4>, taken: set<IPv4>) {
    && services.Keys == vips.Keys
    && Injective(vips)
    && vips.Values <= taken
    && forall n :: n in services ==> services[n].virtualIP == Some(vips[n])
  }

  lemma ValuesUpdate(vips: map<string, IPv4>, n: string, ip: IPv4)
    ensures vips[n := ip].Values == (vips - {n}).Values + {ip}
  {
    var rest, after := vips - {n}, vips[n := ip];
    forall v
      ensures v in after.Values <==> v in rest.Values + {ip}
    {
      if v in after.Values {
        var m :| m in after && after[m] == v;
        assert m != n ==> rest[m] == v;
      }
      if v in rest.Values {
        var m :| m in rest && rest[m] == v;
        assert after[m] == v;
      }
      assert after[n] == ip;
    }
  }

  lemma InjectiveUpdate(vips: map<string, IPv4>, n: string, ip: IPv4)
    requires Injective(vips)
    ensures Injective(vips[n := ip]) <==> ip !in (vips - {n}).Values
  {
    var rest, after := vips - {n}, vips[n := ip];
    if ip in rest.Values {
      var m :| m in rest && rest[m] == ip;
      assert after[m] == after[n] && m != n;
    } else {
      forall l, m | l in after && m in after && after[l] == after[m]
        ensures l == m
      {
        assert l != n ==> rest[l] == after[l] && after[l] in rest.Values;
        assert m != n ==> rest[m] == after[m] && after[m] in rest.Values;
      }
    }
  }

  /** In an injective map, removing a name removes exactly its address. */
  lemma InjectiveRemove(vips: map<string, IPv4>, n: string)
    requires Injective(vips) && n in vips
    ensures Injective(vips - {n}) && (vips - {n}).Values == vips.Values - {vips[n]}
  {
    var rest := vips - {n};
    forall v | v in vips.Values && v != vips[n]
      ensures v in rest.Values
    {
      var m :| m in vips && vips[m] == v;
      assert rest[m] == v;
    }
  }

  lemma {:induction false} InjectiveCount(vips: map<string, IPv4>)
    requires Injective(vips)
    ensures |vips.Values| == |vips|
    decreases |vips|
  {
    if vips == map[] {
      assert vips.Values == {};
    } else {
      var n :| n in vips;
      InjectiveRemove(vips, n);
      assert (vips - {n}).Keys == vips.Keys - {n};
      InjectiveCount(vips - {n});
      assert vips.Values == (vips.Values - {vips[n]}) + {vips[n]};
    }
  }

  /** Giving a name an address keeps the registry consistent exactly if the pool holds the address
      and no other name uses it. */
  lemma AssignIff(services: map<string, Service>, vips: map<string, IPv4>, before: set<IPv4>, taken: set<IPv4>,
                  n: string, s: Service, ip: IPv4)
    requires Consistent(services, vips, before) && before <= taken && s.virtualIP == Some(ip)
    ensures Consistent(services[n := s], vips[n := ip], taken) <==> ip in taken && ip !in (vips - {n}).Values
  {
    ValuesUpdate(vips, n, ip);
    InjectiveUpdate(vips, n, ip);
    assert (vips - {n}).Values <= vips.Values;
  }

  /** A fresh address strands the one the name had before, if any. */
  lemma FreshStrands(vips: map<string, IPv4>, taken: set<IPv4>, n: string, ip: IPv4)
    requires Injective(vips) && vips.Values <= taken && ip !in taken
    ensures (taken + {ip}) - vips[n := ip].Values == (taken - vips.Values) + if n in vips then {vips[n]} else {}
  {
    ValuesUpdate(vips, n, ip);
    if n in vips {
      InjectiveRemove(vips, n);
    } else {
      assert vips - {n} == vips;
    }
  }

  class ServiceRegistry {
    const ipPool: IPPool
    var services: map<string, Service>
    var virtualIPs: map<string, IPv4>

    ghost predicate Valid()
      reads this, ipPool
    {
      ipPool.Valid() && Consistent(services, virtualIPs, ipPool.taken)
    }

    /** Addresses the pool counts as taken although no name resolves to them. */
    ghost function Stranded(): set<IPv4>
      reads this, ipPool
    {
      ipPool.taken - virtualIPs.Values
    }

    constructor (net: Network)
      requires net.Valid()
      ensures Valid() && services == map[] && virtualIPs == map[] && Stranded() == {}
      ensures fresh(ipPool) && ipPool.network == net
    {
      ipPool := new IPPool(net);
      services, virtualIPs := map[], map[];
    }

    /** RegisterService. With an address from the pool the registry stays valid, also when the name was
        registered before; the old address is then stranded. A caller-supplied address keeps it valid
        exactly if the pool holds it and no other name uses it. */
    method RegisterService(service: Service) returns (ok: bool)
      requires Valid()
      modifies this, ipPool
      ensures !ok ==> services == old(services) && virtualIPs == old(virtualIPs) && ipPool.taken == old(ipPool.taken) && Valid()
      ensures ok <==> service.virtualIP.Some? || !(ipPool.network.UsableHosts() <= old(ipPool.taken))
      ensures ok ==> exists vip ::
                && virtualIPs == old(virtualIPs)[FullName(service.name, service.namespace) := vip]
                && services == old(services)[FullName(service.name, service.namespace) := service.(virtualIP := Some(vip))]
                && if service.virtualIP.Some? then vip == service.virtualIP.value && ipPool.taken == old(ipPool.taken)
                   else vip !in old(ipPool.taken) && vip in ipPool.network.UsableHosts() && ipPool.taken == old(ipPool.taken) + {vip}
      ensures service.virtualIP.None? ==> Valid()
      ensures service.virtualIP.None? && ok ==>
                var n := FullName(service.name, service.namespace);
                Stranded() == old(Stranded()) + if n in old(virtualIPs) then {old(virtualIPs)[n]} else {}
      ensures service.virtualIP.Some? ==>
                (Valid() <==>
                 && service.virtualIP.value in old(ipPool.taken)
                 && service.virtualIP.value !in (old(virtualIPs) - {FullName(service.name, service.namespace)}).Values)
    {
      var registered := service;
      if service.virtualIP.None? {
        var ip := ipPool.Allocate();
        if ip.None? {
          return false;
        }
        registered := registered.(virtualIP := ip);
      }
      var vip := registered.virtualIP.value;
      var fullName := FullName(service.name, service.namespace);
      AssignIff(services, virtualIPs, old(ipPool.taken), ipPool.taken, fullName, registered, vip);
      assert (virtualIPs - {fullName}).Values <= virtualIPs.Values;
      if service.virtualIP.None? {
        FreshStrands(virtualIPs, old(ipPool.taken), fullName, vip);
      }
      services := services[fullName := registered];
      virtualIPs := virtualIPs[fullName := vip];
      ok := true;
    }

    /** DeregisterService returns the name's address to the pool and strands nothing. */
    method DeregisterService(name: string, namespace: string)
      requires Valid()
      modifies this, ipPool
      ensures Valid()
      ensures var n := FullName(name, namespace);
              && virtualIPs == old(virtualIPs) - {n} && services == old(services) - {n}
              && ipPool.taken == old(ipPool.taken) - if n in old(virtualIPs) then {old(virtualIPs)[n]} else {}
      ensures Stranded() == old(Stranded())
    {
      var fullName := FullName(name, namespace);
      if fullName in virtualIPs {
        InjectiveRemove(virtualIPs, fullName);
        ipPool.Release(virtualIPs[fullName]);
        virtualIPs := virtualIPs - {fullName};
      } else {
        assert virtualIPs - {fullName} == virtualIPs;
      }
      services := services - {fullName};
    }

    method ResolveService(name: string, namespace: string) returns (r: Option<IPv4>)
      ensures var n := FullName(name, namespace);
              r == if n in virtualIPs then Some(virtualIPs[n]) else None
    {
      var fullName := FullName(name, namespace);
      if fullName in virtualIPs {
        return Some(virtualIPs[fullName]);
      }
      return None;
    }

    /** ReverseLookup walks the addresses in any order. In a valid registry it undoes ResolveService. */
    method ReverseLookup(ip: IPv4) returns (r: Option<Service>)
      requires Valid()
      ensures forall n :: n in virtualIPs && virtualIPs[n] == ip ==> r == Some(services[n])
      ensures r.Some? ==> r.value.virtualIP == Some(ip)
      ensures r.None? <==> ip !in virtualIPs.Values
    {
      var names := virtualIPs.Keys;
      while names != {}
        invariant names <= virtualIPs.Keys
        invariant forall n :: n in virtualIPs && virtualIPs[n] == ip ==> n in names
        decreases names
      {
        var n :| n in names;
        names := names - {n};
        if virtualIPs[n] == ip {
          if n in services {
            return Some(services[n]);
          }
        }
      }
      return None;
    }

    /** Registering then resolving then looking up gives the service back. */
    method RegisterAndLookUp(service: Service) returns (found: Option<Service>)
      requires Valid() && service.virtualIP.None?
      modifies this, ipPool
      ensures Valid()
      ensures found.None? <==> ipPool.network.UsableHosts() <= old(ipPool.taken)
      ensures found.Some? ==> found.value == service.(virtualIP := found.value.virtualIP)
    {
      var ok := RegisterService(service);
      if !ok {
        return None;
      }
      var ip := ResolveService(service.name, service.namespace);
      found := ReverseLookup(ip.value);
    }

    /** Conservation: what the pool has handed out is what the names hold plus what is stranded. */
    lemma AddressesAddUp()
      requires Valid()
      ensures |ipPool.taken| == |virtualIPs| + |Stranded()|
      ensures |ipPool.taken| <= ipPool.network.Hosts()
    {
      InjectiveCount(virtualIPs);
      SubsetSize(virtualIPs.Values, ipPool.taken);
      ipPool.network.UsableCount();
      SubsetSize(ipPool.taken, ipPool.network.UsableHosts());
    }
  }
}
