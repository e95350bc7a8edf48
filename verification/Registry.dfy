/** The registry of listening servers, hosts and clients (srcs/ListenServer.cpp,
    srcs/Host.cpp, srcs/Client.cpp). */
module Registry {
  import opened Maps
  import opened Text

  // ----- lists

  /** list::remove */
  function Without<T(==)>(s: seq<T>, x: T): seq<T> {
    if s == [] then [] else (if s[0] == x then [] else [s[0]]) + Without(s[1..], x)
  }

  lemma {:induction false} WithoutCounts<T>(s: seq<T>, x: T)
    ensures multiset(Without(s, x)) == multiset(s)[x := 0]
  {
    if s != [] {
      WithoutCounts(s[1..], x);
      assert s == [s[0]] + s[1..];
    }
  }

  lemma {:induction false} WithoutIn<T>(s: seq<T>, x: T)
    ensures forall y :: y in Without(s, x) <==> y in s && y != x
  {
    if s != [] { WithoutIn(s[1..], x); }
  }

  /** How often `x` is in the list. */
  function Times<T(==)>(s: seq<T>, x: T): nat { multiset(s)[x] }

  lemma TimesIn<T>(s: seq<T>)
    ensures forall y :: y in s <==> Times(s, y) > 0
  {
  }

  // ----- objects

  class Client {
    const listener: Listener
    var host: Host?

    constructor (listener: Listener)
      ensures this.listener == listener && host == null
    {
      this.listener := listener;
      host := null;
    }

    /** The client has stayed where it was, or moved from its old place to its host. */
    twostate predicate Bound()
      reads this, listener, HostsOf(listener.hostMap)
    {
      listener.hostMap == old(listener.hostMap) && (
      || (host == old(host) && listener.orphans == old(listener.orphans) &&
          forall h :: h in old(HostsOf(listener.hostMap)) ==> h.clients == old(h.clients))
      || (host in old(HostsOf(listener.hostMap)) && listener.orphans == Without(old(listener.orphans), this) &&
          forall h :: h in old(HostsOf(listener.hostMap)) ==>
            var left := if h == old(host) then Without(old(h.clients), this) else old(h.clients);
            h.clients == if h == host then left + [this] else left))
    }

    /** setHost: bound to the host of that name, unless it already is. */
    method SetHost(name: string)
      requires host != null ==> host in HostsOf(listener.hostMap)
      requires host != null && name in host.names ==> name in listener.hostMap && listener.hostMap[name] == host
      requires listener.hostMap != map[]
      modifies `host, listener`orphans, HostsOf(listener.hostMap)`clients
      ensures host == listener.Lookup(name) && Bound()
    {
      if host != null {
        if name in host.names { return; }
        host.clients := Without(host.clients, this);
      }
      host := listener.BindClient(this, name);
    }
  }

  class Host {
    const addr: string
    const ports: set<string>
    const names: seq<string>
    var clients: seq<Client>
    var listeners: set<Listener>

    constructor (addr: string, ports: set<string>, names: seq<string>)
      ensures this.addr == addr && this.ports == ports && this.names == names && clients == [] && listeners == {}
    {
      this.addr, this.ports, this.names := addr, ports, names;
      clients, listeners := [], {};
    }
  }

  class Listener {
    const ip: string
    const port: string
    const maxClients: int
    var orphans: seq<Client>
    var connected: seq<Client>
    var hostMap: map<string, Host>
    var nbrHost: int

    constructor (ip: string, port: string)
      ensures this.ip == ip && this.port == port && maxClients == 0x7FFF_FFFF
      ensures orphans == [] && connected == [] && hostMap == map[] && nbrHost == 0
    {
      this.ip, this.port, maxClients := ip, port, 0x7FFF_FFFF;
      orphans, connected, hostMap, nbrHost := [], [], map[], 0;
    }

    /** The host of that name, or the first one of the map. */
    function Lookup(name: string): (h: Host)
      requires hostMap != map[]
      reads `hostMap
      ensures h in HostsOf(hostMap)
    {
      if name in hostMap then hostMap[name] else hostMap[First(hostMap.Keys).value]
    }

    /** bindClient */
    method BindClient(client: Client, name: string) returns (h: Host)
      requires hostMap != map[]
      modifies `orphans, HostsOf(hostMap)`clients
      ensures h == Lookup(name) && orphans == Without(old(orphans), client)
      ensures if name in hostMap then h == hostMap[name]
              else exists k :: k in hostMap && h == hostMap[k] && forall j :: j in hostMap ==> j == k || Before(k, j)
      ensures forall g :: g in HostsOf(hostMap) ==>
        g.clients == if g == h then old(g.clients) + [client] else old(g.clients)
    {
      if name in hostMap {
        h := hostMap[name];
      } else {
        var it := First(hostMap.Keys);
        h := hostMap[it.value];
      }
      h.clients := h.clients + [client];
      orphans := Without(orphans, client);
    }

    /** assignHost: the free names of the host lead to it. The map holds its hosts under all
        their names, and the number of hosts is right, exactly if all the names were free. */
    method AssignHost(h: Host)
      requires NamesOk(hostMap) && h.names != [] && nbrHost == |HostsOf(hostMap)|
      modifies `hostMap, `nbrHost
      ensures forall k :: k in hostMap <==> k in old(hostMap) || k in h.names
      ensures forall k :: k in hostMap ==> hostMap[k] == if k in old(hostMap) then old(hostMap)[k] else h
      ensures nbrHost == old(nbrHost) + 1
      ensures NamesOk(hostMap) && nbrHost == |HostsOf(hostMap)| <==> Free(old(hostMap), h.names)
      ensures Free(old(hostMap), h.names) ==> Joins(old(hostMap), hostMap, h)
    {
      hide NamesOk;
      var i := 0;
      while i < |h.names|
        invariant 0 <= i <= |h.names|
        invariant Named(hostMap, h.names[i..], h) == Named(old(hostMap), h.names, h)
        modifies `hostMap
      {
        if h.names[i] !in hostMap {
          hostMap := hostMap[h.names[i] := h];
        }
        i := i + 1;
      }
      nbrHost := nbrHost + 1;
      NamedIs(old(hostMap), h);
      if Free(old(hostMap), h.names) { JoinsOk(old(hostMap), h); } else { TakenSpoils(old(hostMap), h); }
    }

    /** unassignHost, for a host that the map holds under its first name or not at all. */
    method UnassignHost(h: Host)
      requires NamesOk(hostMap) && h.names != [] && nbrHost == |HostsOf(hostMap)|
      requires h.names[0] in hostMap ==> hostMap[h.names[0]] == h
      modifies `hostMap, `nbrHost, `connected, h`listeners
      ensures NamesOk(hostMap) && nbrHost == |HostsOf(hostMap)|
      ensures Leaves(old(hostMap), hostMap, h)
      ensures h.listeners == if h in old(HostsOf(hostMap)) then old(h.listeners) - {this} else old(h.listeners)
      ensures connected == if h in old(HostsOf(hostMap)) then WithoutAll(old(connected), h.clients) else old(connected)
    {
      hide NamesOk, Without;
      FirstNameTells(hostMap, h);
      if h.names[0] !in hostMap {
        LeavesNothing(hostMap, h);
        return;
      }
      var j := 0;
      while j < |h.clients|
        invariant 0 <= j <= |h.clients|
        invariant WithoutAll(connected, h.clients[j..]) == WithoutAll(old(connected), h.clients)
        modifies `connected
      {
        connected := Without(connected, h.clients[j]);
        j := j + 1;
      }
      var i := 0;
      while i < |h.names|
        invariant 0 <= i <= |h.names|
        invariant Unnamed(hostMap, h.names[i..]) == Unnamed(old(hostMap), h.names)
        modifies `hostMap
      {
        if h.names[i] in hostMap {
          hostMap := hostMap - {h.names[i]};
        }
        i := i + 1;
      }
      nbrHost := nbrHost - 1;
      h.listeners := h.listeners - {this};
      LeavesOk(old(hostMap), h);
    }
  }

  // ----- host maps

  /** The hosts that a map leads to. */
  function HostsOf(m: map<string, Host>): set<Host> { m.Values }

  /** Every host of the map has exactly its own names there. */
  ghost predicate NamesOk(m: map<string, Host>) {
    forall k :: k in m ==> k in m[k].names && forall n :: n in m[k].names ==> n in m && m[n] == m[k]
  }

  predicate Free(m: map<string, Host>, names: seq<string>) { forall n :: n in names ==> n !in m }

  lemma FreeIs(m: map<string, Host>, names: seq<string>)
    ensures Free(m, names) <==> forall n :: n in names ==> n !in m
  {
  }

  /** The host has come to the map. */
  ghost predicate Joins(m: map<string, Host>, m': map<string, Host>, h: Host) {
    && HostsOf(m') == HostsOf(m) + {h} && h !in HostsOf(m)
    && (forall k :: k in m' <==> k in m || k in h.names)
    && (forall k :: k in m' ==> m'[k] == if k in m then m[k] else h)
  }

  /** The host has gone from the map. */
  ghost predicate Leaves(m: map<string, Host>, m': map<string, Host>, h: Host) {
    && HostsOf(m') == HostsOf(m) - {h}
    && (forall k :: k in m' <==> k in m && m[k] != h)
    && (forall k :: k in m' ==> m'[k] == m[k])
  }

  /** The names that are free lead to `h`. */
  function Named(m: map<string, Host>, names: seq<string>, h: Host): map<string, Host>
    decreases |names|
  {
    if names == [] then m else Named(if names[0] in m then m else m[names[0] := h], names[1..], h)
  }

  /** The names are erased. */
  function Unnamed(m: map<string, Host>, names: seq<string>): map<string, Host>
    decreases |names|
  {
    if names == [] then m else Unnamed(if names[0] in m then m - {names[0]} else m, names[1..])
  }

  lemma {:induction false} NamedAt(m: map<string, Host>, names: seq<string>, h: Host, k: string)
    ensures k in Named(m, names, h) <==> k in m || k in names
    ensures k in m ==> Named(m, names, h)[k] == m[k]
    ensures k !in m && k in names ==> Named(m, names, h)[k] == h
    decreases |names|
  {
    if names != [] { NamedAt(if names[0] in m then m else m[names[0] := h], names[1..], h, k); }
  }

  lemma {:induction false} UnnamedAt(m: map<string, Host>, names: seq<string>, k: string)
    ensures k in Unnamed(m, names) <==> k in m && k !in names
    ensures k in m && k !in names ==> Unnamed(m, names)[k] == m[k]
    decreases |names|
  {
    if names != [] { UnnamedAt(if names[0] in m then m - {names[0]} else m, names[1..], k); }
  }

  lemma JoinsNames(m: map<string, Host>, m': map<string, Host>, h: Host)
    requires NamesOk(m) && forall n :: n in h.names ==> n !in m
    requires forall k :: k in m' <==> k in m || k in h.names
    requires forall k :: k in m' ==> m'[k] == if k in m then m[k] else h
    ensures NamesOk(m')
  {
    forall k | k in m' ensures k in m'[k].names && forall n :: n in m'[k].names ==> n in m' && m'[n] == m'[k] {
      if k in m {
        assert m'[k] == m[k];
      } else {
        assert m'[k] == h;
      }
    }
  }

  lemma JoinsGrows(m: map<string, Host>, m': map<string, Host>, h: Host)
    requires Joins(m, m', h) && h.names != []
    ensures HostsOf(m') == HostsOf(m) + {h} && m' != map[]
  {
    assert h.names[0] in m';
  }

  lemma NoHosts()
    ensures HostsOf(map[]) == {} && NamesOk(map[])
  {
  }

  lemma JoinsHosts(m: map<string, Host>, m': map<string, Host>, h: Host)
    requires h.names != [] && forall n :: n in h.names ==> n !in m
    requires forall k :: k in m' <==> k in m || k in h.names
    requires forall k :: k in m' ==> m'[k] == if k in m then m[k] else h
    ensures HostsOf(m') == HostsOf(m) + {h}
  {
    assert m'[h.names[0]] == h;
    forall v | v in HostsOf(m) ensures v in HostsOf(m') {
      var k :| k in m && m[k] == v;
      assert m'[k] == v;
    }
  }

  lemma NamedIs(m: map<string, Host>, h: Host)
    ensures var m' := Named(m, h.names, h);
            && (forall k :: k in m' <==> k in m || k in h.names)
            && (forall k :: k in m' ==> m'[k] == if k in m then m[k] else h)
  {
    hide Named;
    var m' := Named(m, h.names, h);
    forall k ensures k in m' <==> k in m || k in h.names { NamedAt(m, h.names, h, k); }
    forall k | k in m' ensures m'[k] == if k in m then m[k] else h { NamedAt(m, h.names, h, k); }
  }

  /** A host with a name that is taken spoils the map, or only the number of hosts. */
  lemma TakenSpoils(m: map<string, Host>, h: Host)
    requires NamesOk(m) && !Free(m, h.names)
    ensures var m' := Named(m, h.names, h); !(NamesOk(m') && |HostsOf(m)| + 1 == |HostsOf(m')|)
  {
    hide Named, HostsOf;
    var m' := Named(m, h.names, h);
    NamedIs(m, h);
    var n :| n in h.names && n in m;
    if forall k :: k in h.names ==> k in m {
      assert m' == m;
    } else {
      var f :| f in h.names && f !in m;
      assert m'[f] == h && m'[n] == m[n];
    }
  }

  lemma JoinsOk(m: map<string, Host>, h: Host)
    requires NamesOk(m) && h.names != [] && Free(m, h.names)
    ensures var m' := Named(m, h.names, h); NamesOk(m') && Joins(m, m', h) && |HostsOf(m')| == |HostsOf(m)| + 1
  {
    hide Named, NamesOk, HostsOf;
    var m' := Named(m, h.names, h);
    NamedIs(m, h);
    JoinsNames(m, m', h);
    FirstNameTells(m, h);
    JoinsHosts(m, m', h);
  }

  lemma LeavesOk(m: map<string, Host>, h: Host)
    requires NamesOk(m) && h in HostsOf(m)
    ensures var m' := Unnamed(m, h.names); NamesOk(m') && Leaves(m, m', h) && |HostsOf(m')| == |HostsOf(m)| - 1
  {
    hide Unnamed;
    var m' := Unnamed(m, h.names);
    forall k ensures k in m' <==> k in m && k !in h.names { UnnamedAt(m, h.names, k); }
    forall k | k in m' ensures m'[k] == m[k] { UnnamedAt(m, h.names, k); }
    forall v | v in HostsOf(m) && v != h ensures v in HostsOf(m') {
      var k :| k in m && m[k] == v;
      assert k in m' && m'[k] == v;
    }
    assert HostsOf(m') == HostsOf(m) - {h};
  }

  lemma EmptyMap(m: map<string, Host>)
    ensures m == map[] <==> HostsOf(m) == {}
  {
    if m != map[] {
      var k :| k in m;
      assert m[k] in HostsOf(m);
    }
  }

  lemma LeavesNothing(m: map<string, Host>, h: Host)
    requires h !in HostsOf(m)
    ensures Leaves(m, m, h)
  {
  }

  lemma FirstNameTells(m: map<string, Host>, h: Host)
    requires NamesOk(m) && h.names != [] && (h.names[0] in m ==> m[h.names[0]] == h)
    ensures h.names[0] in m <==> h in HostsOf(m)
  {
  }

  /** list::remove of every element of a list. */
  function WithoutAll<T(==)>(s: seq<T>, xs: seq<T>): seq<T>
    decreases |xs|
  {
    if xs == [] then s else WithoutAll(Without(s, xs[0]), xs[1..])
  }

  lemma {:induction false} WithoutAllAbsent<T>(s: seq<T>, xs: seq<T>)
    requires forall x :: x in xs ==> x !in s
    ensures WithoutAll(s, xs) == s
    decreases |xs|
  {
    if xs != [] {
      WithoutAbsent(s, xs[0]);
      WithoutAllAbsent(s, xs[1..]);
    }
  }

  lemma {:induction false} WithoutAbsent<T>(s: seq<T>, x: T)
    requires x !in s
    ensures Without(s, x) == s
  {
    if s != [] {
      WithoutAbsent(s[1..], x);
      assert s == [s[0]] + s[1..];
    }
  }

  // ----- the whole registry

  /** The static lists of the program: servers, hosts and clients. */
  class Directory {
    var servers: seq<Listener>
    var hosts: seq<Host>
    var clients: seq<Client>

    constructor ()
      ensures Valid() && servers == [] && hosts == [] && clients == []
    {
      servers, hosts, clients := [], [], [];
    }

    ghost predicate ServersOk()
      reads `servers
    {
      Apart(servers)
    }

    /** A host lists a server exactly if the map of the server leads to it; the map holds
        the names of its hosts, and their number is kept. */
    ghost predicate MapsOk()
      reads `servers, `hosts, servers`hostMap, servers`nbrHost, hosts`listeners
    {
      && (forall h :: h in hosts ==> h.names != [] && forall l :: l in h.listeners ==> l in servers)
      && (forall l :: l in servers ==> NamesOk(l.hostMap) && l.nbrHost == |HostsOf(l.hostMap)|)
      && (forall l, h :: l in servers && h in HostsOf(l.hostMap) ==> h in hosts && h.addr == l.ip)
      && (forall l, h :: l in servers && h in hosts ==> (l in h.listeners <==> h in HostsOf(l.hostMap)))
    }

    ghost predicate Served()
      reads `servers, servers`hostMap
    {
      forall l :: l in servers ==> l.hostMap != map[]
    }

    /** A live client is once in the list of its server, and once in exactly one place:
        among the orphans if it has no host, else at its host, which its server knows. */
    ghost predicate PlaceOk(c: Client)
      reads `servers, `hosts, `clients, c`host, servers`orphans, servers`connected, servers`hostMap, hosts`clients
    {
      && Times(clients, c) == 1 && c.listener in servers
      && (c.host != null ==> c.host in hosts && c.host in HostsOf(c.listener.hostMap))
      && (forall l :: l in servers ==> Times(l.connected, c) == if c.listener == l then 1 else 0)
      && (forall l :: l in servers ==> Times(l.orphans, c) == if c.listener == l && c.host == null then 1 else 0)
      && (forall h :: h in hosts ==> Times(h.clients, c) == if c.host == h then 1 else 0)
    }

    /** Every live client has its place, and the lists hold live clients only. */
    ghost predicate PlacesOk()
      reads `servers, `hosts, `clients, clients`host, servers`orphans, servers`connected, servers`hostMap, hosts`clients
    {
      (forall c :: c in clients ==> PlaceOk(c)) && LiveOnly()
    }

    ghost predicate LiveOnly()
      reads `servers, `hosts, `clients, servers`orphans, servers`connected, hosts`clients
    {
      && (forall l, c :: l in servers && c in l.connected ==> c in clients)
      && (forall l, c :: l in servers && c in l.orphans ==> c in clients)
      && (forall h, c :: h in hosts && c in h.clients ==> c in clients)
    }

    /** The lists have changed, but only about `c`. */
    twostate predicate OnlyAbout(c: Client)
      reads `servers, `hosts, `clients, servers`orphans, servers`connected, hosts`clients
    {
      && servers == old(servers) && hosts == old(hosts) && About(old(clients), clients, c)
      && (forall l :: l in servers ==> About(old(l.connected), l.connected, c) && About(old(l.orphans), l.orphans, c))
      && (forall h :: h in hosts ==> About(old(h.clients), h.clients, c))
    }

    /** What only concerns one client leaves every other one in its place. */
    twostate lemma OthersKeep(c: Client)
      requires OnlyAbout(c) && forall l :: l in servers ==> l.hostMap == old(l.hostMap)
      ensures forall o :: o in clients && o != c && o in old(clients) && old(PlaceOk(o)) && o.host == old(o.host) ==>
        PlaceOk(o)
    {
      hide Times, About;
      forall o | o in clients && o != c && o in old(clients) ensures Times(clients, o) == old(Times(clients, o)) {
        SameCount(old(clients), clients, c, o);
      }
      forall l, o | l in servers && o in clients && o != c ensures Times(l.connected, o) == Times(old(l.connected), o) {
        SameCount(old(l.connected), l.connected, c, o);
      }
      forall l, o | l in servers && o in clients && o != c ensures Times(l.orphans, o) == Times(old(l.orphans), o) {
        SameCount(old(l.orphans), l.orphans, c, o);
      }
      forall h, o | h in hosts && o in clients && o != c ensures Times(h.clients, o) == Times(old(h.clients), o) {
        SameCount(old(h.clients), h.clients, c, o);
      }
    }

    twostate lemma StillLive(c: Client)
      requires old(LiveOnly()) && OnlyAbout(c)
      requires c !in clients ==>
        && (forall l :: l in servers ==> c !in l.connected && c !in l.orphans)
        && (forall h :: h in hosts ==> c !in h.clients)
      ensures LiveOnly()
    {
      hide Times, About;
      AboutIn(old(clients), clients, c);
      forall l, o | l in servers && o in l.connected ensures o in clients { AboutIn(old(l.connected), l.connected, c); }
      forall l, o | l in servers && o in l.orphans ensures o in clients { AboutIn(old(l.orphans), l.orphans, c); }
      forall h, o | h in hosts && o in h.clients ensures o in clients { AboutIn(old(h.clients), h.clients, c); }
    }

    ghost predicate Valid()
      reads this, clients, servers, hosts
    {
      ServersOk() && MapsOk() && Served() && PlacesOk()
    }

    lemma ServersParts()
      ensures ServersOk() <==> Apart(servers)
    {
    }

    lemma ValidParts()
      ensures Valid() <==> ServersOk() && MapsOk() && Served() && PlacesOk()
    {
      hide ServersOk, MapsOk, Served, PlacesOk;
    }

    lemma PlacesParts()
      ensures PlacesOk() <==> LiveOnly() && forall c :: c in clients ==> PlaceOk(c)
    {
      hide LiveOnly, PlaceOk;
    }

    // ----- clients

    /** A client that is not live is in no list. */
    lemma Unknown(c: Client)
      requires PlacesOk() && c !in clients
      ensures Times(clients, c) == 0
      ensures forall l :: l in servers ==> Times(l.connected, c) == 0 && Times(l.orphans, c) == 0
      ensures forall h :: h in hosts ==> Times(h.clients, c) == 0
    {
      hide Times;
      TimesIn(clients);
      forall l | l in servers ensures Times(l.connected, c) == 0 && Times(l.orphans, c) == 0 {
        TimesIn(l.connected);
        TimesIn(l.orphans);
      }
      forall h | h in hosts ensures Times(h.clients, c) == 0 { TimesIn(h.clients); }
    }

    /** acceptConnection: `accepted` tells whether accept returned a socket. */
    method AcceptConnection(l: Listener, accepted: bool) returns (c: Client?)
      requires Valid() && l in servers
      modifies `clients, l`connected, l`orphans
      ensures Valid()
      ensures c == null <==> |old(l.connected)| >= l.maxClients || !accepted
      ensures c == null ==> clients == old(clients)
      ensures c != null ==> fresh(c) && clients == old(clients) + [c] && c.listener == l && c.host == null
    {
      hide Times, NamesOk, MapsOk, Served;
      if |l.connected| >= l.maxClients || !accepted { return null; }
      var client := new Client(l);
      Unknown(client);
      TimesOnce(clients, client);
      TimesOnce(l.connected, client);
      TimesOnce(l.orphans, client);
      label Before:
      clients := clients + [client];
      l.connected := l.connected + [client];
      l.orphans := l.orphans + [client];
      OthersKeep@Before(client);
      StillLive@Before(client);
      c := client;
    }

    /** setHost on a live client agrees with a fresh lookup of the name, also when it
        returns early. */
    method Rebind(c: Client, name: string)
      requires Valid() && c in clients
      modifies c`host, servers`orphans, hosts`clients
      ensures Valid() && c.host == c.listener.Lookup(name)
      ensures forall o :: o in clients && o != c ==> o.host == old(o.host)
    {
      hide *;
      ValidParts();
      PlacesParts();
      Knows(c, name);
      c.SetHost(name);
      Moved(c);
      OthersKeep(c);
      StillLive(c);
      ValidParts();
      PlacesParts();
    }

    /** What setHost does to the lists. */
    twostate lemma Moved(c: Client)
      requires old(PlaceOk(c)) && c in clients && c.listener in servers && c.Bound()
      requires servers == old(servers) && hosts == old(hosts) && clients == old(clients)
      requires forall l :: l in servers ==> l.connected == old(l.connected) && l.hostMap == old(l.hostMap)
      requires forall l :: l in servers && l != c.listener ==> l.orphans == old(l.orphans)
      requires forall h :: h in hosts && h !in HostsOf(c.listener.hostMap) ==> h.clients == old(h.clients)
      requires c.host in hosts && c.host in HostsOf(c.listener.hostMap)
      ensures PlaceOk(c) && OnlyAbout(c)
    {
      hide Times, Without;
      TimesOnce(old(c.listener.orphans), c);
      forall h | h in hosts ensures Times(h.clients, c) == if h == c.host then 1 else 0 {
        TimesOnce(old(h.clients), c);
      }
    }

    /** A host of the map of a server is found there under any of its names. */
    lemma Knows(c: Client, name: string)
      requires Valid() && c in clients
      ensures c.listener in servers && c.listener.hostMap != map[]
      ensures forall h :: h in HostsOf(c.listener.hostMap) ==> h in hosts
      ensures c.host != null ==> c.host in HostsOf(c.listener.hostMap)
      ensures c.host != null && name in c.host.names ==>
        name in c.listener.hostMap && c.listener.hostMap[name] == c.host
    {
      hide Times;
    }

    /** The lists in which a live client is not. */
    lemma Elsewhere(c: Client)
      requires PlacesOk() && c in clients
      ensures c.listener in servers && (c.host != null ==> c.host in hosts)
      ensures forall l :: l in servers && l != c.listener ==> c !in l.connected && c !in l.orphans
      ensures forall h :: h in hosts && h != c.host ==> c !in h.clients
    {
      hide Times;
      forall l | l in servers && l != c.listener ensures c !in l.connected && c !in l.orphans {
        TimesIn(l.connected);
        TimesIn(l.orphans);
      }
      forall h | h in hosts && h != c.host ensures c !in h.clients { TimesIn(h.clients); }
    }

    /** terminate: the client leaves every list. */
    method Terminate(c: Client)
      requires PlacesOk() && c in clients
      modifies `clients, c.listener`orphans, c.listener`connected, hosts`clients
      ensures PlacesOk() && forall o :: o in clients <==> o in old(clients) && o != c
      ensures c.listener.orphans == Without(old(c.listener.orphans), c)
      ensures c.listener.connected == Without(old(c.listener.connected), c)
    {
      hide *;
      PlacesParts();
      Elsewhere(c);
      WithoutIn(c.listener.orphans, c);
      WithoutIn(c.listener.connected, c);
      WithoutIn(clients, c);
      if c.host != null {
        WithoutIn(c.host.clients, c);
        c.host.clients := Without(c.host.clients, c);
      }
      c.listener.orphans := Without(c.listener.orphans, c);
      c.listener.connected := Without(c.listener.connected, c);
      clients := Without(clients, c);
      Dropped(c);
      OthersKeep(c);
      StillLive(c);
      PlacesParts();
    }

    /** Leaving its lists concerns one client only. */
    twostate lemma Dropped(c: Client)
      requires servers == old(servers) && hosts == old(hosts) && clients == Without(old(clients), c)
      requires forall l :: l in servers ==>
        l.connected == Without(old(l.connected), c) || l.connected == old(l.connected)
      requires forall l :: l in servers ==> l.orphans == Without(old(l.orphans), c) || l.orphans == old(l.orphans)
      requires forall h :: h in hosts ==> h.clients == Without(old(h.clients), c) || h.clients == old(h.clients)
      ensures OnlyAbout(c)
    {
      hide Without;
    }

    // ----- hosts and servers

    /** findServer */
    method FindServer(addr: string, port: string) returns (l: Listener?)
      ensures l == null ==> forall s :: s in servers ==> s.ip != addr || s.port != port
      ensures l != null ==> l in servers && l.ip == addr && l.port == port
    {
      var i := 0;
      while i < |servers|
        invariant 0 <= i <= |servers|
        invariant forall j :: 0 <= j < i ==> servers[j].ip != addr || servers[j].port != port
      {
        if servers[i].ip == addr && servers[i].port == port { return servers[i]; }
        i := i + 1;
      }
      l := null;
    }

    /** None of the names is taken at any of the places. */
    ghost predicate Admits(addr: string, ports: set<string>, names: seq<string>)
      reads `servers, servers`hostMap
    {
      forall l, n :: l in servers && l.ip == addr && l.port in ports && n in names ==> n !in l.hostMap
    }

    /** checkServerNames: the order of the ports does not matter. */
    method CheckServerNames(addr: string, ports: set<string>, names: seq<string>) returns (free: bool)
      requires ServersOk()
      ensures free <==> Admits(addr, ports, names)
    {
      var todo := ports;
      while todo != {}
        invariant todo <= ports && Admits(addr, ports - todo, names)
        decreases |todo|
      {
        var port :| port in todo;
        var l := FindServer(addr, port);
        if l != null {
          OnlyServer(l);
          var i := 0;
          while i < |names|
            invariant 0 <= i <= |names| && forall n :: n in names[..i] ==> n !in l.hostMap
          {
            if names[i] in l.hostMap {
              assert names[i] in names;
              return false;
            }
            i := i + 1;
          }
          assert names[..i] == names;
        }
        todo := todo - {port};
      }
      free := true;
    }

    lemma OnlyServer(l: Listener)
      requires ServersOk() && l in servers
      ensures forall s :: s in servers && s.ip == l.ip && s.port == l.port ==> s == l
    {
    }

    /** addServer, once its socket is bound. */
    method AddServer(addr: string, port: string) returns (l: Listener)
      requires ServersOk() && MapsOk() && PlacesOk() && forall s :: s in servers ==> s.ip != addr || s.port != port
      modifies `servers
      ensures ServersOk() && MapsOk() && PlacesOk() && fresh(l) && servers == old(servers) + [l]
      ensures l.ip == addr && l.port == port && l.hostMap == map[]
    {
      hide *;
      ServersParts();
      l := new Listener(addr, port);
      ApartSnoc(servers, l);
      servers := servers + [l];
      ServersParts();
      NewServer(l);
    }

    twostate lemma NewServer(new l: Listener)
      requires old(MapsOk() && PlacesOk()) && servers == old(servers) + [l] && hosts == old(hosts) &&
        clients == old(clients)
      requires l !in old(servers) && l.connected == [] && l.orphans == [] && l.hostMap == map[] && l.nbrHost == 0
      requires forall s :: s in old(servers) ==> unchanged(s)
      requires forall c :: c in clients ==> unchanged(c)
      requires forall h :: h in hosts ==> unchanged(h)
      ensures MapsOk() && PlacesOk()
    {
      hide Times, NamesOk, HostsOf;
      TimesIn<Client>([]);
      NoHosts();
    }

    ghost predicate Listening(h: Host, port: string)
      reads h`listeners
    {
      exists l :: l in h.listeners && l.ip == h.addr && l.port == port
    }

    /** registerHost on one port: `opens` tells whether a new socket could be bound. */
    method RegisterAt(h: Host, port: string, opens: bool) returns (failed: bool)
      requires Valid() && h in hosts && Admits(h.addr, {port}, h.names)
      modifies `servers, servers`hostMap, servers`nbrHost, h`listeners
      ensures Valid() && old(servers) <= servers
      ensures failed <==> !opens && forall l :: l in old(servers) ==> l.ip != h.addr || l.port != port
      ensures !failed ==> exists l :: l in h.listeners && l.ip == h.addr && l.port == port
      ensures old(h.listeners) <= h.listeners
      ensures forall l :: l in servers && l !in old(servers) ==> fresh(l)
      ensures forall l :: l in servers && l.port != port ==> l in old(servers) && l.hostMap == old(l.hostMap)
    {
      hide *;
      ValidParts();
      ServedParts();
      var l := FindServer(h.addr, port);
      if l == null {
        if !opens { return true; }
        l := AddServer(h.addr, port);
      } else {
        Admitted(h, port, l);
      }
      Assign(h, l);
      ServedParts();
      ValidParts();
      return false;
    }

    /** The host joins a server that has none of its names. */
    method Assign(h: Host, l: Listener)
      requires ServersOk() && MapsOk() && PlacesOk() && h in hosts && l in servers && l.ip == h.addr
      requires forall n :: n in h.names ==> n !in l.hostMap
      modifies l`hostMap, l`nbrHost, h`listeners
      ensures MapsOk() && PlacesOk() && l.hostMap != map[] && h.listeners == old(h.listeners) + {l}
      ensures Joins(old(l.hostMap), l.hostMap, h)
    {
      hide *;
      HostsParts();
      MapFields(l);
      FreeIs(l.hostMap, h.names);
      l.AssignHost(h);
      JoinsGrows(old(l.hostMap), l.hostMap, h);
      h.listeners := h.listeners + {l};
      Linked(l);
      MapsGrow();
    }

    lemma HostsParts()
      requires MapsOk()
      ensures forall h :: h in hosts ==> h.names != []
    {
      hide NamesOk, HostsOf;
    }

    /** A host has joined a server and lists it. */
    twostate lemma Linked(l: Listener)
      requires old(MapsOk()) && servers == old(servers) && hosts == old(hosts) && l in servers
      requires NamesOk(l.hostMap) && l.nbrHost == |HostsOf(l.hostMap)| && old(HostsOf(l.hostMap)) <= HostsOf(l.hostMap)
      requires forall s :: s in servers && s != l ==> unchanged(s`hostMap, s`nbrHost)
      requires forall g :: g in HostsOf(l.hostMap) && g !in old(HostsOf(l.hostMap)) ==>
        g in hosts && g.addr == l.ip && l in g.listeners
      requires forall g :: g in hosts ==>
                 g.listeners == old(g.listeners) || (g in HostsOf(l.hostMap) && g.listeners == old(g.listeners) + {l})
      ensures MapsOk()
    {
      hide NamesOk, HostsOf;
    }

    /** Hosts that join a server disturb no client. */
    twostate lemma MapsGrow()
      requires old(PlacesOk()) && servers == old(servers) && hosts == old(hosts) && clients == old(clients)
      requires forall s :: s in servers ==>
        unchanged(s`connected, s`orphans) && HostsOf(old(s.hostMap)) <= HostsOf(s.hostMap)
      requires forall c :: c in clients ==> c.host == old(c.host)
      requires forall h :: h in hosts ==> h.clients == old(h.clients)
      ensures PlacesOk()
    {
      hide Times;
    }

    lemma ServedParts()
      ensures Served() <==> forall l :: l in servers ==> l.hostMap != map[]
    {
    }

    lemma Admitted(h: Host, port: string, l: Listener)
      requires Admits(h.addr, {port}, h.names) && l in servers && l.ip == h.addr && l.port == port
      ensures forall n :: n in h.names ==> n !in l.hostMap
    {
    }

    /** addHost, for names that checkServerNames found free: the host joins the server
        of each of its ports, made where there is none. */
    method AddHost(addr: string, ports: set<string>, names: seq<string>, opens: set<string>)
      returns (h: Host, failed: bool)
      requires Valid() && names != [] && Admits(addr, ports, names)
      modifies `hosts, `servers, servers`hostMap, servers`nbrHost
      ensures Valid() && fresh(h) && hosts == old(hosts) + [h] && old(servers) <= servers
      ensures h.addr == addr && h.names == names
      ensures !failed ==> forall port :: port in ports ==> Listening(h, port)
      ensures ports <= opens ==> !failed
    {
      hide Valid, Served, MapsOk, PlacesOk, ServersOk;
      ValidParts();
      h := new Host(addr, ports, names);
      hosts := hosts + [h];
      NewHost(h);
      ValidParts();
      failed := false;
      var todo := ports;
      while todo != {}
        invariant todo <= ports && Valid() && h in hosts && hosts == old(hosts) + [h] && old(servers) <= servers
        invariant forall l :: l in servers && l !in old(servers) ==> fresh(l)
        invariant Admits(addr, todo, names)
        invariant !failed ==> forall port :: port in ports - todo ==> Listening(h, port)
        invariant ports <= opens ==> !failed
        decreases |todo|
      {
        var port :| port in todo;
        label Before:
        assert forall i :: 0 <= i < |servers| ==> servers[i] in old(servers) || fresh(servers[i]);
        var missed := RegisterAt(h, port, port in opens);
        forall p | old@Before(Listening(h, p)) ensures Listening(h, p) {
          var l :| l in old@Before(h.listeners) && l.ip == h.addr && l.port == p;
        }
        if missed { failed := true; }
        todo := todo - {port};
      }
    }

    /** A host that no server knows yet. */
    twostate lemma NewHost(new h: Host)
      requires old(MapsOk() && PlacesOk()) && hosts == old(hosts) + [h] && servers == old(servers) &&
        clients == old(clients)
      requires h !in old(hosts) && h.clients == [] && h.listeners == {} && h.names != []
      requires forall l :: l in servers ==> unchanged(l)
      requires forall c :: c in clients ==> c.host == old(c.host) && c.host != h
      requires forall g :: g in old(hosts) ==> unchanged(g)
      requires forall l :: l in servers ==> h !in HostsOf(l.hostMap)
      ensures MapsOk() && PlacesOk()
    {
      hide NamesOk, HostsOf, Times;
      TimesIn<Client>([]);
    }

    /** The first loop of removeServer: the iterator moves on before the client it stood
        on leaves the list. */
    method TerminateOrphans(l: Listener)
      requires PlacesOk() && l in servers
      modifies `clients, l`orphans, l`connected, hosts`clients
      ensures PlacesOk() && l.orphans == []
      ensures forall c :: c in clients ==> c in old(clients)
      ensures forall c :: c in old(clients) && c.listener != l ==> c in clients
    {
      hide Times, Without, PlaceOk, LiveOnly;
      var next := l.orphans;
      while next != []
        invariant PlacesOk() && l.orphans == next
        invariant forall c :: c in clients ==> c in old(clients)
        invariant forall c :: c in old(clients) && c.listener != l ==> c in clients
        decreases |next|
      {
        var c := next[0];
        next := next[1..];
        InOrphans(l);
        Terminate(c);
      }
    }

    lemma InOrphans(l: Listener)
      requires PlacesOk() && l in servers && l.orphans != []
      ensures var c := l.orphans[0]; c in clients && c.listener == l && Without(l.orphans, c) == l.orphans[1..]
    {
      hide Times;
      TimesIn(l.orphans);
      var c := l.orphans[0];
      assert c in clients && PlaceOk(c) && c in l.orphans;
      OnceFirst(l.orphans);
    }

    /** The second loop of removeServer. */
    method TerminateConnected(l: Listener)
      requires PlacesOk() && l in servers && l.orphans == []
      modifies `clients, l`orphans, l`connected, hosts`clients
      ensures PlacesOk() && l.orphans == [] && l.connected == []
      ensures forall c :: c in clients ==> c in old(clients)
      ensures forall c :: c in old(clients) && c.listener != l ==> c in clients
    {
      hide Times, Without, PlaceOk, LiveOnly;
      var next := l.connected;
      while next != []
        invariant PlacesOk() && l.connected == next && l.orphans == []
        invariant forall c :: c in clients ==> c in old(clients)
        invariant forall c :: c in old(clients) && c.listener != l ==> c in clients
        decreases |next|
      {
        var c := next[0];
        next := next[1..];
        InConnected(l);
        WithoutAbsent<Client>([], c);
        Terminate(c);
      }
    }

    lemma InConnected(l: Listener)
      requires PlacesOk() && l in servers && l.connected != []
      ensures var c := l.connected[0]; c in clients && c.listener == l && Without(l.connected, c) == l.connected[1..]
    {
      hide Times;
      TimesIn(l.connected);
      var c := l.connected[0];
      assert c in clients && PlaceOk(c) && c in l.connected;
      OnceFirst(l.connected);
    }

    lemma NoneLeft(l: Listener)
      requires PlacesOk() && l in servers && l.connected == []
      ensures forall c :: c in clients ==> c.listener != l
    {
      hide Times;
      TimesIn(l.connected);
      assert forall c :: c in clients ==> PlaceOk(c);
      assert forall c :: c in clients ==> Times(l.connected, c) == 0;
    }

    /** One turn of the third loop of removeServer: the iterator moves on before the host
        it stood on is unassigned, and does not stand on an erased entry afterwards. */
    method UnassignNext(l: Listener, it: UniqueValues<Host>) returns (h: Host)
      requires it.position.Some? && StandsAt(l.hostMap, it.position) && HostsOf(l.hostMap) !! it.seen
      requires NamesOk(l.hostMap) && l.nbrHost == |HostsOf(l.hostMap)| && l.connected == []
      requires forall g :: g in HostsOf(l.hostMap) ==> g in hosts && g.names != []
      modifies it, l`hostMap, l`nbrHost, l`connected, hosts`listeners
      ensures StandsAt(l.hostMap, it.position) && |l.hostMap| < old(|l.hostMap|)
      ensures NamesOk(l.hostMap) && l.nbrHost == |HostsOf(l.hostMap)| && l.connected == []
      ensures h in old(HostsOf(l.hostMap)) && HostsOf(l.hostMap) == old(HostsOf(l.hostMap)) - {h}
      ensures HostsOf(l.hostMap) !! it.seen && forall g :: g in HostsOf(l.hostMap) ==> g in hosts && g.names != []
      ensures forall g :: g in hosts ==> g.listeners == if g == h then old(g.listeners) - {l} else old(g.listeners)
    {
      hide *;
      StandsIn(l.hostMap, it.position.value);
      ghost var before, at := l.hostMap, it.position.value;
      InHosts(l.hostMap, at);
      h := it.SafePostIncrement(l.hostMap);
      FirstNameOf(l.hostMap, h);
      WithoutAllAbsent<Client>([], h.clients);
      l.UnassignHost(h);
      Stands(before, l.hostMap, h, at, it);
      LeftValues(before, l.hostMap, h);
    }

    /** The third loop of removeServer: every distinct host of the map is unassigned once,
        though the map is erased under the iterator. `unassigned` lists the hosts in the
        order they go. */
    method UnassignAll(l: Listener) returns (ghost unassigned: seq<Host>)
      requires MapsOk() && l in servers && l.connected == []
      modifies l`hostMap, l`nbrHost, l`connected, hosts`listeners
      ensures l.hostMap == map[] && l.nbrHost == 0 && l.connected == []
      ensures Distinct(unassigned) && Elements(unassigned) == old(HostsOf(l.hostMap))
      ensures forall h :: h in hosts ==>
        h.listeners == if h in old(HostsOf(l.hostMap)) then old(h.listeners) - {l} else old(h.listeners)
    {
      hide *;
      MapFields(l);
      unassigned := [];
      ghost var all := HostsOf(l.hostMap);
      NoneGone(all);
      var it := new UniqueValues(l.hostMap);
      StartsAtFirst(l.hostMap);
      while it.position.Some?
        invariant fresh(it) && StandsAt(l.hostMap, it.position)
        invariant NamesOk(l.hostMap) && l.nbrHost == |HostsOf(l.hostMap)| && l.connected == []
        invariant Gone(unassigned, all, HostsOf(l.hostMap)) && HostsOf(l.hostMap) !! it.seen
        invariant forall h :: h in HostsOf(l.hostMap) ==> h in hosts && h.names != []
        invariant forall h :: h in hosts ==>
          h.listeners == if h in all && h !in HostsOf(l.hostMap) then old(h.listeners) - {l} else old(h.listeners)
        decreases |l.hostMap|
      {
        ghost var left := HostsOf(l.hostMap);
        var h := UnassignNext(l, it);
        OneGone(unassigned, all, left, h);
        unassigned := unassigned + [h];
      }
      StandsNowhere(l.hostMap);
      AllGone(unassigned, all);
    }

    lemma MapFields(l: Listener)
      requires MapsOk() && l in servers
      ensures NamesOk(l.hostMap) && l.nbrHost == |HostsOf(l.hostMap)|
      ensures forall h :: h in HostsOf(l.hostMap) ==> h in hosts && h.names != []
    {
      hide NamesOk;
    }

    /** removeServer: its clients are terminated, its hosts leave it, and it is gone. */
    method RemoveServer(l: Listener) returns (ghost unassigned: seq<Host>)
      requires ServersOk() && MapsOk() && PlacesOk() && OthersServed(l) && l in servers
      modifies `servers, `clients, l`hostMap, l`nbrHost, l`orphans, l`connected, hosts`clients, hosts`listeners
      ensures Valid() && forall s :: s in servers <==> s in old(servers) && s != l
      ensures l.hostMap == map[] && l.orphans == [] && l.connected == []
      ensures forall h :: h in hosts ==> l !in h.listeners
      ensures forall h :: h in hosts ==>
        h.listeners == if h in old(HostsOf(l.hostMap)) then old(h.listeners) - {l} else old(h.listeners)
      ensures forall c :: c in clients <==> c in old(clients) && c.listener != l
      ensures Distinct(unassigned) && Elements(unassigned) == old(HostsOf(l.hostMap))
    {
      hide *;
      ValidParts();
      ServersParts();
      TerminateOrphans(l);
      TerminateConnected(l);
      NoneLeft(l);
      label Emptied:
      unassigned := UnassignAll(l);
      servers := Without(servers, l);
      WithoutIn(old(servers), l);
      ApartWithout(old(servers), l);
      PlacesLeft@Emptied(l);
      MapsLeft(l);
      ServersParts();
      ValidParts();
    }

    /** The clients that are left have kept their places. */
    twostate lemma PlacesLeft(l: Listener)
      requires old(PlacesOk()) && clients == old(clients) && hosts == old(hosts)
      requires forall s :: s in servers <==> s in old(servers) && s != l
      requires forall c :: c in clients ==> c.listener != l && unchanged(c)
      requires forall s :: s in servers ==> unchanged(s)
      requires forall h :: h in hosts ==> h.clients == old(h.clients)
      ensures PlacesOk()
    {
      hide Times;
    }

    /** The servers that are left have kept their maps. */
    twostate lemma MapsLeft(l: Listener)
      requires old(MapsOk() && OthersServed(l)) && l in old(servers) && hosts == old(hosts)
      requires forall s :: s in servers <==> s in old(servers) && s != l
      requires forall s :: s in servers ==> unchanged(s`hostMap, s`nbrHost)
      requires forall h :: h in hosts ==>
                 h.listeners == if h in old(HostsOf(l.hostMap)) then old(h.listeners) - {l} else old(h.listeners)
      ensures MapsOk() && Served() && forall h :: h in hosts ==> l !in h.listeners
    {
      hide NamesOk, HostsOf;
    }

    // ----- leaving

    /** No live client of the server is bound to the host. */
    ghost predicate NoneBound(h: Host, l: Listener)
      reads `clients, clients`host
    {
      forall c :: c in clients && c.listener == l ==> c.host != h
    }

    /** unassignHost on a host that the server knows: the maps stay in step, the places of
        the clients exactly if none of them was bound there. */
    method Unassign(h: Host, l: Listener)
      requires MapsOk() && PlacesOk() && h in hosts && l in servers && h in HostsOf(l.hostMap)
      modifies l`hostMap, l`nbrHost, l`connected, h`listeners
      ensures MapsOk() && Leaves(old(l.hostMap), l.hostMap, h) && h.listeners == old(h.listeners) - {l}
      ensures PlacesOk() <==> NoneBound(h, l)
    {
      hide *;
      MapFields(l);
      FirstNameOf(l.hostMap, h);
      NoneConnected(h, l);
      l.UnassignHost(h);
      LeftValues(old(l.hostMap), l.hostMap, h);
      Unlinked(l);
      Astray(h, l);
      if NoneBound(h, l) {
        NoneBoundParts(h, l);
        MapsShrink(h);
      }
    }

    lemma NoneConnected(h: Host, l: Listener)
      requires PlacesOk() && h in hosts && l in servers
      ensures NoneBound(h, l) ==> WithoutAll(l.connected, h.clients) == l.connected
    {
      hide Times, WithoutAll;
      TimesIn(h.clients);
      TimesIn(l.connected);
      if NoneBound(h, l) {
        assert forall c :: c in h.clients ==> c in clients && PlaceOk(c);
        WithoutAllAbsent(l.connected, h.clients);
      }
    }

    lemma NoneBoundParts(h: Host, l: Listener)
      ensures NoneBound(h, l) <==> forall c :: c in clients && c.listener == l ==> c.host != h
    {
    }

    /** A client that is bound to a host its server does not know has no place. */
    lemma Astray(h: Host, l: Listener)
      requires h !in HostsOf(l.hostMap)
      ensures PlacesOk() ==> NoneBound(h, l)
    {
      hide HostsOf, Times;
    }

    /** A host has left a server and no longer lists it. */
    twostate lemma Unlinked(l: Listener)
      requires old(MapsOk()) && servers == old(servers) && hosts == old(hosts) && l in servers
      requires NamesOk(l.hostMap) && l.nbrHost == |HostsOf(l.hostMap)| && HostsOf(l.hostMap) <= old(HostsOf(l.hostMap))
      requires forall s :: s in servers && s != l ==> unchanged(s`hostMap, s`nbrHost)
      requires forall g :: g in hosts ==>
        g.listeners ==
        if g in old(HostsOf(l.hostMap)) && g !in HostsOf(l.hostMap) then old(g.listeners) - {l} else old(g.listeners)
      ensures MapsOk()
    {
      hide NamesOk, HostsOf;
    }

    /** A host that leaves a server disturbs no client bound elsewhere. */
    twostate lemma MapsShrink(h: Host)
      requires old(PlacesOk()) && servers == old(servers) && hosts == old(hosts) && clients == old(clients)
      requires forall s :: s in servers ==> unchanged(s`connected, s`orphans)
      requires forall s :: s in servers ==>
                 HostsOf(s.hostMap) == old(HostsOf(s.hostMap)) ||
                 (HostsOf(s.hostMap) == old(HostsOf(s.hostMap)) - {h} &&
                  forall c :: c in clients && c.listener == s ==> c.host != h)
      requires forall c :: c in clients ==> c.host == old(c.host)
      requires forall g :: g in hosts ==> g.clients == old(g.clients)
      ensures PlacesOk()
    {
      hide Times, HostsOf;
    }

    /** Every server but one has a host. */
    ghost predicate OthersServed(l: Listener)
      reads `servers, servers`hostMap
    {
      forall s :: s in servers && s != l ==> s.hostMap != map[]
    }

    lemma OthersServedParts(l: Listener)
      ensures Served() ==> OthersServed(l)
      ensures OthersServed(l) <==> forall s :: s in servers && s != l ==> s.hostMap != map[]
      ensures OthersServed(l) && l.hostMap != map[] ==> Served()
    {
    }

    /** unregisterHost at one server: the host leaves it, a server without hosts is removed,
        and so is a host without servers. */
    method UnregisterAt(h: Host, l: Listener)
      requires Valid() && h in hosts && l in servers && l in h.listeners && NoneBound(h, l)
      modifies `servers, `hosts, `clients, l`hostMap, l`nbrHost, l`orphans, l`connected, hosts`clients, hosts`listeners
      ensures Valid() && Leaves(old(l.hostMap), l.hostMap, h)
      ensures forall s :: s in servers <==> s in old(servers) && (s != l || old(HostsOf(l.hostMap)) != {h})
      ensures forall c :: c in clients <==> c in old(clients) && c.listener in servers
      ensures forall g :: g in hosts <==> g in old(hosts) && (g != h || old(h.listeners) != {l})
      ensures forall g :: g in old(hosts) ==> g.listeners == if g == h then old(g.listeners) - {l} else old(g.listeners)
    {
      hide *;
      ValidParts();
      OthersServedParts(l);
      Listed(h, l);
      Placed();
      Unassign(h, l);
      LeftValues(old(l.hostMap), l.hostMap, h);
      OthersServedParts(l);
      EmptyMap(l.hostMap);
      if l.hostMap == map[] {
        ghost var gone := RemoveServer(l);
      } else {
        ValidParts();
      }
      if h.listeners == {} {
        RemoveHost(h);
      }
    }

    /** unregisterHost: the host leaves all its servers, by way of a copy of its list. */
    method UnregisterHost(h: Host)
      requires Valid() && h in hosts && forall c :: c in clients ==> c.host != h
      modifies `servers, `hosts, `clients, servers`hostMap, servers`nbrHost, servers`orphans, servers`connected,
        hosts`clients, hosts`listeners
      ensures Valid() && h.listeners == {}
      ensures forall s :: s in old(servers) ==> Leaves(old(s.hostMap), s.hostMap, h)
      ensures forall s :: s in servers <==> s in old(servers) && old(HostsOf(s.hostMap)) != {h}
      ensures forall c :: c in clients <==> c in old(clients) && c.listener in servers
      ensures forall g :: g in hosts <==> g in old(hosts) && (g != h || old(h.listeners) == {})
    {
      hide *;
      ValidParts();
      Placed();
      AllListed(h);
      var todo := h.listeners;
      while todo != {}
        invariant todo == h.listeners && todo <= old(h.listeners) && Valid()
        invariant forall s :: s in servers <==> s in old(servers) && (s in todo || old(HostsOf(s.hostMap)) != {h})
        invariant forall s :: s in old(servers) && s in todo ==> s.hostMap == old(s.hostMap)
        invariant forall s :: s in old(servers) && s !in todo ==> Leaves(old(s.hostMap), s.hostMap, h)
        invariant forall c :: c in clients <==> c in old(clients) && c.listener in servers
        invariant forall g :: g in hosts <==> g in old(hosts) && (g != h || old(h.listeners) == {} || todo != {})
        decreases |todo|
      {
        var l :| l in todo;
        var s := FindListed(h, l);
        NoneBoundParts(h, l);
        assert forall i :: 0 <= i < |hosts| ==> hosts[i] in hosts && hosts[i] in old(hosts);
        UnregisterAt(h, s);
        todo := todo - {l};
      }
    }

    /** findServer leads back to a server that the host lists. */
    method FindListed(h: Host, l: Listener) returns (s: Listener)
      requires Valid() && h in hosts && l in h.listeners
      ensures s == l && l in servers
    {
      hide *;
      AllListed(h);
      ValidParts();
      OnlyServer(l);
      s := FindServer(h.addr, l.port);
    }

    /** A host lists exactly the servers that know it, and they share its address. */
    lemma AllListed(h: Host)
      requires Valid() && h in hosts
      ensures forall l :: l in h.listeners ==> l in servers && l.ip == h.addr
      ensures forall l :: l in servers ==> (l in h.listeners <==> h in HostsOf(l.hostMap))
      ensures forall l :: l in servers && h !in HostsOf(l.hostMap) ==> Leaves(l.hostMap, l.hostMap, h)
    {
      hide NamesOk, HostsOf, Leaves, PlacesOk, Served, ServersOk;
      forall l | l in servers && h !in HostsOf(l.hostMap) ensures Leaves(l.hostMap, l.hostMap, h) {
        LeavesNothing(l.hostMap, h);
      }
    }

    lemma Placed()
      requires PlacesOk()
      ensures forall c :: c in clients ==> c.listener in servers
    {
      hide Times, HostsOf;
    }

    lemma Listed(h: Host, l: Listener)
      requires MapsOk() && l in servers && h in hosts
      ensures l in h.listeners <==> h in HostsOf(l.hostMap)
    {
      hide NamesOk, HostsOf;
    }

    /** Host::removeHost on a host without servers: its shutdown finds no client. */
    method RemoveHost(h: Host)
      requires Valid() && h in hosts && h.listeners == {}
      modifies `hosts
      ensures Valid() && forall g :: g in hosts <==> g in old(hosts) && g != h
    {
      hide *;
      ValidParts();
      NoClients(h);
      WithoutIn(hosts, h);
      hosts := Without(hosts, h);
      HostGone(h);
      HostMissed(h);
      ValidParts();
    }

    /** A host without servers has no clients. */
    lemma NoClients(h: Host)
      requires MapsOk() && PlacesOk() && h in hosts && h.listeners == {}
      ensures h.clients == [] && forall c :: c in clients ==> c.host != h
    {
      hide Times, NamesOk, HostsOf;
      assert |h.clients| > 0 ==> h.clients[0] in h.clients;
      TimesIn(h.clients);
      assert forall c :: c in clients ==> PlaceOk(c) && c.host != h;
      assert forall c :: c in clients ==> Times(h.clients, c) == 0;
    }

    /** No map and no client misses a host that no server knows. */
    twostate lemma HostGone(h: Host)
      requires old(MapsOk() && Served()) && servers == old(servers)
      requires forall g :: g in hosts <==> g in old(hosts) && g != h
      requires h.listeners == {} && old(h in hosts)
      requires forall s :: s in servers ==> unchanged(s)
      requires forall g :: g in old(hosts) ==> unchanged(g)
      ensures MapsOk() && Served()
    {
      hide NamesOk, HostsOf;
      forall s | s in servers ensures h !in HostsOf(s.hostMap) { assert s !in old(h.listeners); }
      forall s, g | s in servers && g in HostsOf(s.hostMap) ensures g in hosts && g.addr == s.ip {
        assert s in old(servers) && g in old(HostsOf(s.hostMap)) && g in old(hosts);
      }
    }

    twostate lemma HostMissed(h: Host)
      requires old(PlacesOk()) && servers == old(servers) && clients == old(clients)
      requires forall g :: g in hosts <==> g in old(hosts) && g != h
      requires forall c :: c in clients ==> c.host == old(c.host) && c.host != h
      requires forall s :: s in servers ==> unchanged(s)
      requires forall g :: g in old(hosts) ==> unchanged(g)
      ensures PlacesOk()
    {
      hide HostsOf, Times;
      forall c | c in clients ensures PlaceOk(c) {
        assert old(PlaceOk(c));
        assert forall g :: g in hosts ==> Times(g.clients, c) == if c.host == g then 1 else 0;
      }
      assert LiveOnly();
    }
  }

  /** No two servers listen at the same place. */
  ghost predicate Apart(s: seq<Listener>) {
    forall i, j :: 0 <= i < j < |s| ==> s[i].ip != s[j].ip || s[i].port != s[j].port
  }

  lemma ApartSnoc(s: seq<Listener>, l: Listener)
    requires forall t :: t in s ==> t.ip != l.ip || t.port != l.port
    ensures Apart(s) ==> Apart(s + [l])
  {
  }

  lemma {:induction false} ApartWithout(s: seq<Listener>, l: Listener)
    ensures Apart(s) ==> Apart(Without(s, l))
  {
    if s != [] && Apart(s) {
      ApartWithout(s[1..], l);
      WithoutIn(s[1..], l);
      var w := Without(s[1..], l);
      assert Apart(s[1..]);
      assert forall t :: t in s[1..] ==> t.ip != s[0].ip || t.port != s[0].port;
      assert forall i :: 0 <= i < |w| ==> w[i] in w;
      assert Apart([s[0]] + w);
    }
  }

  ghost predicate Distinct<T>(s: seq<T>) {
    forall i, j :: 0 <= i < j < |s| ==> s[i] != s[j]
  }

  ghost function Elements<T>(s: seq<T>): set<T> { set x | x in s }

  /** The list holds each element of `all` that is not left, once. */
  ghost predicate Gone<T>(s: seq<T>, all: set<T>, left: set<T>) {
    Distinct(s) && left <= all && Elements(s) == all - left
  }

  lemma NoneGone<T>(all: set<T>)
    ensures Gone([], all, all)
  {
  }

  lemma OneGone<T>(s: seq<T>, all: set<T>, left: set<T>, x: T)
    requires Gone(s, all, left) && x in left
    ensures Gone(s + [x], all, left - {x}) && x in all
  {
    assert Elements(s + [x]) == Elements(s) + {x};
    assert x !in Elements(s);
  }

  lemma AllGone<T>(s: seq<T>, all: set<T>)
    ensures Gone(s, all, {}) ==> Distinct(s) && Elements(s) == all
  {
  }

  lemma LeftValues(m: map<string, Host>, m': map<string, Host>, h: Host)
    requires Leaves(m, m', h)
    ensures HostsOf(m') == HostsOf(m) - {h}
  {
  }

  lemma InHosts(m: map<string, Host>, k: string)
    ensures k in m ==> m[k] in HostsOf(m)
  {
  }

  lemma StandsIn(m: map<string, Host>, p: string)
    ensures StandsAt(m, Some(p)) ==> p in m
  {
  }

  lemma StandsNowhere(m: map<string, Host>)
    ensures StandsAt(m, None) ==> m == map[] && HostsOf(m) == {}
  {
  }

  /** The iterator stands on an entry of the map, none lies before it; or the map is
      empty. */
  ghost predicate StandsAt(m: map<string, Host>, position: Option<string>) {
    match position
    case None => m == map[]
    case Some(p) => p in m && forall k :: k in m ==> k == p || Before(p, k)
  }

  lemma StartsAtFirst(m: map<string, Host>)
    ensures StandsAt(m, First(m.Keys))
  {
    hide Before;
    if m.Keys == {} { assert m == map[]; }
  }

  lemma FirstNameOf(m: map<string, Host>, h: Host)
    requires NamesOk(m) && h in HostsOf(m) && h.names != []
    ensures h.names[0] in m && m[h.names[0]] == h
  {
  }

  /** The host that the iterator has left is erased; what it stands on is still there. */
  lemma Stands(before: map<string, Host>, after: map<string, Host>, h: Host, at: string, it: UniqueValues<Host>)
    requires StandsAt(before, Some(at)) && before[at] == h && Leaves(before, after, h)
    requires it.Skipped(before, at) && h in it.seen
    requires HostsOf(before) * it.seen <= {h}
    requires it.position.Some? ==> it.position.value in before && before[it.position.value] !in it.seen
    ensures StandsAt(after, it.position) && |after| < |before|
  {
    hide Before;
    assert at in before && at !in after;
    assert after.Keys <= before.Keys - {at};
    SubsetSize(after.Keys, before.Keys - {at});
    match it.position
    case None =>
      forall k | k in before ensures k !in after { assert before[k] in HostsOf(before); }
      assert after == map[];
    case Some(p) =>
      forall k | k in after ensures k == p || Before(p, k) {
        BeforeIsTotal(k, p);
        assert before[k] in HostsOf(before) && before[k] !in HostsOf(before) * it.seen;
      }
  }

  lemma OnceFirst<T>(s: seq<T>)
    requires s != [] && Times(s, s[0]) == 1
    ensures Without(s, s[0]) == s[1..]
  {
    assert s == [s[0]] + s[1..];
    WithoutAbsent(s[1..], s[0]);
  }

  /** A list has changed about one element only. */
  predicate About<T(==)>(s: seq<T>, s': seq<T>, x: T) {
    s' == s || s' == Without(s, x) || s' == Without(s, x) + [x] || s' == s + [x]
  }

  lemma SameCount<T>(s: seq<T>, s': seq<T>, x: T, y: T)
    requires About(s, s', x) && y != x
    ensures Times(s', y) == Times(s, y)
  {
    WithoutCounts(s, x);
  }

  lemma AboutIn<T>(s: seq<T>, s': seq<T>, x: T)
    requires About(s, s', x)
    ensures forall y :: y != x ==> (y in s' <==> y in s)
  {
    WithoutIn(s, x);
  }

  lemma TimesOnce<T>(s: seq<T>, x: T)
    ensures Times(Without(s, x), x) == 0 && Times(Without(s, x) + [x], x) == 1 && Times(s + [x], x) == Times(s, x) + 1
  {
    WithoutCounts(s, x);
  }
}
