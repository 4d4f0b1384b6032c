/**
  The addresses of the machine a restore runs on: noted from the database that
  is being replaced, and written over the one that replaces it. Tunnels of the
  two are taken for the same by their names.
 */
module LocalAddresses {
  import opened Prelude

  /** The settings this is about, and any other. */
  datatype Setting =
    | PanelListen | PanelPort | PanelBasePath | PanelDomain | PanelCertFile | PanelKeyFile | PanelTrustedProxies
    | SubListen | SubPort | SubCertFile | SubKeyFile
    | SubHost | SubReverseProxyUri
    | Other(name: string)

  /** How the panel itself is reached. */
  const ACCESS := [PanelListen, PanelPort, PanelBasePath, PanelDomain, PanelCertFile, PanelKeyFile, PanelTrustedProxies,
                   SubListen, SubPort, SubCertFile, SubKeyFile]

  /** What names this server to customers. */
  const BOUND := [SubHost, SubReverseProxyUri]

  datatype Tunnel = Tunnel(id: nat, name: string, endpoint: string)

  /** A spare address as it is carried: without ids, and without the row's other columns. */
  datatype Spare = Spare(name: string, address: string, port: int, priority: int, enabled: bool)

  /** `extra` is what an operator put in the other columns, empty where that is nothing. */
  datatype HostRow = HostRow(tunnel: nat, spare: Spare, extra: string)

  datatype NodeRow = NodeRow(id: nat, isLocal: bool, address: string)

  type Settings = map<Setting, string>

  /** The tables of one database; each in the order its rows are read. */
  datatype Tables = Tables(settings: Settings, tunnels: seq<Tunnel>, hosts: seq<HostRow>, nodes: seq<NodeRow>)

  /** The addresses read from one panel's tables. Records written by older versions have no `access`, or no
      `keep`, and stand for addresses that are kept. */
  datatype Record = Record(interfaces: map<string, string>, hosts: map<string, seq<Spare>>, settings: Settings,
                           node: string, access: Option<Settings>, keep: Option<bool>)

  function Lookup<K, V>(m: map<K, V>, k: K): Option<V> {
    if k in m then Some(m[k]) else None
  }

  predicate DistinctIds(tunnels: seq<Tunnel>) {
    forall i, j :: 0 <= i < j < |tunnels| ==> tunnels[i].id != tunnels[j].id
  }

  // ---- reading ----

  function NameOf(tunnels: seq<Tunnel>, id: nat): Option<string> {
    if tunnels == [] then None
    else if tunnels[|tunnels| - 1].id == id then Some(tunnels[|tunnels| - 1].name)
    else NameOf(tunnels[..|tunnels| - 1], id)
  }

  /** The endpoint of the last tunnel of a name: two servers may each have one. */
  function EndpointOf(tunnels: seq<Tunnel>, name: string): Option<string> {
    if tunnels == [] then None
    else if tunnels[|tunnels| - 1].name == name then Some(tunnels[|tunnels| - 1].endpoint)
    else EndpointOf(tunnels[..|tunnels| - 1], name)
  }

  /** The spares of every tunnel of a name, in the order of their rows. */
  function SparesNamed(tunnels: seq<Tunnel>, hosts: seq<HostRow>, name: string): seq<Spare> {
    if hosts == [] then []
    else
      SparesNamed(tunnels, hosts[..|hosts| - 1], name)
      + if NameOf(tunnels, hosts[|hosts| - 1].tunnel) == Some(name) then [hosts[|hosts| - 1].spare] else []
  }

  /** The address of the first node that is this panel itself. */
  function LocalNode(nodes: seq<NodeRow>): string {
    if nodes == [] then "" else if nodes[0].isLocal then nodes[0].address else LocalNode(nodes[1..])
  }

  /** What a record says is what the tables it was read from hold. */
  ghost predicate ReadFrom(r: Record, t: Tables, keep: bool) {
    && r.keep == Some(keep) && r.access.Some?
    && (forall k :: Lookup(r.access.value, k) == if k in ACCESS then Lookup(t.settings, k) else None)
    && (forall k :: Lookup(r.settings, k) == if keep && k in BOUND then Lookup(t.settings, k) else None)
    && (forall n :: Lookup(r.interfaces, n) == if keep then EndpointOf(t.tunnels, n) else None)
    && (forall n :: Lookup(r.hosts, n) == if keep && SparesNamed(t.tunnels, t.hosts, n) != [] then Some(SparesNamed(t.tunnels, t.hosts, n)) else None)
    && r.node == if keep then LocalNode(t.nodes) else ""
  }

  // ---- putting back ----

  predicate Keeps(r: Record) {
    r.keep == None || r.keep == Some(true)
  }

  function SettingAfter(r: Record, before: Settings, k: Setting): Option<string> {
    if Keeps(r) && k in r.settings then Some(r.settings[k])
    else if r.access.Some? && k in ACCESS then Lookup(r.access.value, k)
    else Lookup(before, k)
  }

  function TunnelAfter(r: Record, t: Tunnel): Tunnel {
    if Keeps(r) && t.name in r.interfaces && r.interfaces[t.name] != "" then t.(endpoint := r.interfaces[t.name]) else t
  }

  /** A row inserted: a switch that is off is left out of the insert, and the column is on by default; so are
      the columns that are not carried. */
  function Inserted(id: nat, s: Spare): HostRow {
    HostRow(id, s.(enabled := true), "")
  }

  function InsertedAll(id: nat, spares: seq<Spare>): seq<HostRow> {
    seq(|spares|, i requires 0 <= i < |spares| => Inserted(id, spares[i]))
  }

  function Without(hosts: seq<HostRow>, id: nat): seq<HostRow> {
    if hosts == [] then []
    else Without(hosts[..|hosts| - 1], id) + if hosts[|hosts| - 1].tunnel == id then [] else [hosts[|hosts| - 1]]
  }

  predicate Replaces(r: Record, t: Tunnel) {
    Keeps(r) && t.name in r.interfaces && t.name in r.hosts
  }

  /** The spares after the first tunnels have been gone through. */
  function HostsAfter(r: Record, tunnels: seq<Tunnel>, hosts: seq<HostRow>): seq<HostRow> {
    if tunnels == [] then hosts
    else
      var t := tunnels[|tunnels| - 1];
      var before := HostsAfter(r, tunnels[..|tunnels| - 1], hosts);
      if Replaces(r, t) then Without(before, t.id) + InsertedAll(t.id, r.hosts[t.name]) else before
  }

  function NodeAfter(r: Record, n: NodeRow): NodeRow {
    if Keeps(r) && r.node != "" && n.isLocal then n.(address := r.node) else n
  }

  function Known(r: Record, tunnels: seq<Tunnel>): nat {
    if tunnels == [] then 0
    else Known(r, tunnels[..|tunnels| - 1]) + if tunnels[|tunnels| - 1].name in r.interfaces then 1 else 0
  }

  ghost predicate PutBack(r: Record, before: Tables, after: Tables) {
    && (forall k :: Lookup(after.settings, k) == SettingAfter(r, before.settings, k))
    && after.tunnels == seq(|before.tunnels|, i requires 0 <= i < |before.tunnels| => TunnelAfter(r, before.tunnels[i]))
    && after.hosts == HostsAfter(r, before.tunnels, before.hosts)
    && after.nodes == seq(|before.nodes|, i requires 0 <= i < |before.nodes| => NodeAfter(r, before.nodes[i]))
  }

  // ---- the statements of a put-back, any of which may fail ----

  datatype Stmt =
    | SaveSetting(key: Setting, value: string)
    | DeleteSetting(key: Setting)
    | FindTunnels
    | SetEndpoint(id: nat, endpoint: string)
    | ClearSpares(id: nat)
    | InsertSpare(id: nat, spare: Spare)
    | SetLocalNode(address: string)

  function WithEndpoint(tunnels: seq<Tunnel>, id: nat, endpoint: string): seq<Tunnel> {
    seq(|tunnels|, i requires 0 <= i < |tunnels| => if tunnels[i].id == id then tunnels[i].(endpoint := endpoint) else tunnels[i])
  }

  function WithLocalNode(nodes: seq<NodeRow>, address: string): seq<NodeRow> {
    seq(|nodes|, i requires 0 <= i < |nodes| => if nodes[i].isLocal then nodes[i].(address := address) else nodes[i])
  }

  /** What one statement does. */
  function Do(t: Tables, s: Stmt): Tables {
    match s
    case SaveSetting(k, v) => t.(settings := t.settings[k := v])
    case DeleteSetting(k) => t.(settings := t.settings - {k})
    case FindTunnels => t
    case SetEndpoint(id, e) => t.(tunnels := WithEndpoint(t.tunnels, id, e))
    case ClearSpares(id) => t.(hosts := Without(t.hosts, id))
    case InsertSpare(id, spare) => t.(hosts := t.hosts + [Inserted(id, spare)])
    case SetLocalNode(a) => t.(nodes := WithLocalNode(t.nodes, a))
  }

  function Run(t: Tables, ss: seq<Stmt>): Tables {
    if ss == [] then t else Do(Run(t, ss[..|ss| - 1]), ss[|ss| - 1])
  }

  function AccessStmt(access: Settings, k: Setting): Stmt {
    if k in access then SaveSetting(k, access[k]) else DeleteSetting(k)
  }

  function AccessStmts(access: Settings, keys: seq<Setting>): seq<Stmt> {
    seq(|keys|, i requires 0 <= i < |keys| => AccessStmt(access, keys[i]))
  }

  function InsertStmts(id: nat, spares: seq<Spare>): seq<Stmt> {
    seq(|spares|, i requires 0 <= i < |spares| => InsertSpare(id, spares[i]))
  }

  function EndpointStmts(r: Record, t: Tunnel): seq<Stmt> {
    if t.name in r.interfaces && r.interfaces[t.name] != "" && r.interfaces[t.name] != t.endpoint then
      [SetEndpoint(t.id, r.interfaces[t.name])]
    else []
  }

  function SpareStmts(r: Record, t: Tunnel): seq<Stmt> {
    if t.name in r.interfaces && t.name in r.hosts then [ClearSpares(t.id)] + InsertStmts(t.id, r.hosts[t.name]) else []
  }

  function TunnelsStmts(r: Record, tunnels: seq<Tunnel>): seq<Stmt> {
    if tunnels == [] then []
    else
      var t := tunnels[|tunnels| - 1];
      TunnelsStmts(r, tunnels[..|tunnels| - 1]) + (EndpointStmts(r, t) + SpareStmts(r, t))
  }

  /** Each key of the settings once: the order the source's loop over its map takes them in. */
  predicate InOrder(order: seq<Setting>, m: Settings) {
    multiset(order) == multiset(m.Keys)
  }

  lemma OrderHolds(order: seq<Setting>, m: Settings)
    requires InOrder(order, m)
    ensures forall k :: k in order <==> k in m
  {
    forall k ensures k in order <==> k in m {
      assert k in multiset(order) <==> k in multiset(m.Keys);
    }
  }

  function SettingStmts(order: seq<Setting>, m: Settings): seq<Stmt> {
    seq(|order|, i requires 0 <= i < |order| => SaveSetting(order[i], if order[i] in m then m[order[i]] else ""))
  }

  function NodeStmts(r: Record): seq<Stmt> {
    if r.node != "" then [SetLocalNode(r.node)] else []
  }

  function AccessPart(r: Record): seq<Stmt> {
    if r.access.Some? then AccessStmts(r.access.value, ACCESS) else []
  }

  /** What is put back where customers' addresses are kept. */
  function KeptPart(r: Record, tunnels: seq<Tunnel>, order: seq<Setting>): seq<Stmt> {
    [FindTunnels] + TunnelsStmts(r, tunnels) + SettingStmts(order, r.settings) + NodeStmts(r)
  }

  /** Every statement of a put-back, how the panel is reached before everything else. */
  function Plan(r: Record, tunnels: seq<Tunnel>, order: seq<Setting>): seq<Stmt> {
    AccessPart(r) + if Keeps(r) then KeptPart(r, tunnels, order) else []
  }

  /** With `left` statements carried out before one fails: the plan is gone through as far as that. */
  ghost predicate Went(before: Tables, left: nat, plan: seq<Stmt>, after: Tables, leftAfter: nat, ok: bool) {
    && ok == (|plan| <= left)
    && after == Run(before, if ok then plan else plan[..left])
    && leftAfter == if ok then left - |plan| else 0
  }

  lemma {:induction false} RunConcat(t: Tables, a: seq<Stmt>, b: seq<Stmt>)
    ensures Run(t, a + b) == Run(Run(t, a), b)
  {
    if b == [] {
      assert a + b == a;
    } else {
      assert (a + b)[..|a + b| - 1] == a + b[..|b| - 1];
      RunConcat(t, a, b[..|b| - 1]);
    }
  }

  lemma RunOne(t: Tables, s: Stmt)
    ensures Run(t, [s]) == Do(t, s)
  {
    assert [s][..0] == [] && Run(t, []) == t;
  }

  lemma WentOne(before: Tables, left: nat, s: Stmt, after: Tables, leftAfter: nat, ok: bool)
    requires ok == (left > 0) && after == (if ok then Do(before, s) else before) && leftAfter == if ok then left - 1 else 0
    ensures Went(before, left, [s], after, leftAfter, ok)
  {
    RunOne(before, s);
    assert !ok ==> [s][..left] == [];
  }

  /** One plan after another; a failure in the first is a failure of both there. */
  lemma WentThen(before: Tables, left: nat, p: seq<Stmt>, mid: Tables, leftMid: nat, ok: bool,
                 q: seq<Stmt>, after: Tables, leftAfter: nat, okAfter: bool)
    requires Went(before, left, p, mid, leftMid, ok)
    requires if ok then Went(mid, leftMid, q, after, leftAfter, okAfter)
             else after == mid && leftAfter == leftMid && !okAfter
    ensures Went(before, left, p + q, after, leftAfter, okAfter)
  {
    if ok {
      RunConcat(before, p, q);
      if !okAfter {
        assert (p + q)[..left] == p + q[..leftMid];
        RunConcat(before, p, q[..leftMid]);
      }
    } else {
      assert (p + q)[..left] == p[..left];
    }
  }

  // ---- what a restore leaves ----

  /** The rows of one tunnel. */
  function RowsOf(hosts: seq<HostRow>, id: nat): seq<HostRow> {
    if hosts == [] then []
    else RowsOf(hosts[..|hosts| - 1], id) + if hosts[|hosts| - 1].tunnel == id then [hosts[|hosts| - 1]] else []
  }

  lemma {:induction false} RowsOfConcat(a: seq<HostRow>, b: seq<HostRow>, id: nat)
    ensures RowsOf(a + b, id) == RowsOf(a, id) + RowsOf(b, id)
  {
    if b == [] {
      assert a + b == a;
    } else {
      assert (a + b)[..|a + b| - 1] == a + b[..|b| - 1];
      RowsOfConcat(a, b[..|b| - 1], id);
    }
  }

  lemma {:induction false} SparesWithout(hosts: seq<HostRow>, gone: nat, id: nat)
    ensures RowsOf(Without(hosts, gone), id) == if id == gone then [] else RowsOf(hosts, id)
  {
    if hosts != [] {
      var rest, h := hosts[..|hosts| - 1], hosts[|hosts| - 1];
      SparesWithout(rest, gone, id);
      RowsOfConcat(Without(rest, gone), if h.tunnel == gone then [] else [h], id);
    }
  }

  lemma {:induction false} SparesInserted(at: nat, spares: seq<Spare>, id: nat)
    ensures RowsOf(InsertedAll(at, spares), id) == if id == at then InsertedAll(at, spares) else []
  {
    if spares != [] {
      var rest := spares[..|spares| - 1];
      SparesInserted(at, rest, id);
      assert InsertedAll(at, spares)[..|spares| - 1] == InsertedAll(at, rest);
      assert InsertedAll(at, spares) == InsertedAll(at, rest) + [Inserted(at, spares[|spares| - 1])];
    }
  }

  /** Each restored tunnel's spares: replaced when the record has some under its name, otherwise untouched. */
  lemma {:induction false} SparesAfter(r: Record, tunnels: seq<Tunnel>, hosts: seq<HostRow>, id: nat)
    requires DistinctIds(tunnels)
    ensures (forall t :: t in tunnels ==> t.id != id) ==> RowsOf(HostsAfter(r, tunnels, hosts), id) == RowsOf(hosts, id)
    ensures forall t :: t in tunnels && t.id == id ==>
              RowsOf(HostsAfter(r, tunnels, hosts), id) == if Replaces(r, t) then InsertedAll(id, r.hosts[t.name]) else RowsOf(hosts, id)
  {
    if tunnels != [] {
      var n := |tunnels| - 1;
      var rest, t := tunnels[..n], tunnels[n];
      SparesAfter(r, rest, hosts, id);
      assert forall u :: u in rest ==> u in tunnels && u.id != t.id;
      assert forall u :: u in tunnels ==> u in rest || u == t;
      if Replaces(r, t) {
        var before := HostsAfter(r, rest, hosts);
        SparesWithout(before, t.id, id);
        SparesInserted(t.id, r.hosts[t.name], id);
        RowsOfConcat(Without(before, t.id), InsertedAll(t.id, r.hosts[t.name]), id);
      }
    }
  }

  /** Reading the live panel and putting it back over any restored one: how the panel is reached is the live
      panel's setting for setting, present exactly when it was; nothing outside the two lists changes, and
      what names the server to customers changes only when it is kept and the live panel had it. */
  lemma AccessIsLive(r: Record, live: Tables, keep: bool, before: Tables, after: Tables)
    requires ReadFrom(r, live, keep) && PutBack(r, before, after)
    ensures forall k :: k in ACCESS ==> Lookup(after.settings, k) == Lookup(live.settings, k)
    ensures forall k :: k in BOUND ==> Lookup(after.settings, k) == if keep && k in live.settings then Some(live.settings[k]) else Lookup(before.settings, k)
    ensures forall k :: k !in ACCESS && k !in BOUND ==> Lookup(after.settings, k) == Lookup(before.settings, k)
  {
    forall k | k in ACCESS ensures Lookup(after.settings, k) == Lookup(live.settings, k) {
      assert k !in BOUND;
      assert Lookup(r.settings, k) == None;
    }
    forall k | k in BOUND
      ensures Lookup(after.settings, k) == if keep && k in live.settings then Some(live.settings[k]) else Lookup(before.settings, k)
    {
      assert k !in ACCESS;
      assert Lookup(r.settings, k) == if keep then Lookup(live.settings, k) else None;
    }
    forall k | k !in ACCESS && k !in BOUND ensures Lookup(after.settings, k) == Lookup(before.settings, k) {
      assert Lookup(r.settings, k) == None;
    }
  }

  /** A restored tunnel known by name is reached where the live panel's was, where that one had an address;
      any other keeps what the archive says. Nothing else of a tunnel changes. */
  lemma EndpointIsLive(r: Record, live: Tables, keep: bool, before: Tables, after: Tables, i: nat)
    requires ReadFrom(r, live, keep) && PutBack(r, before, after) && i < |before.tunnels|
    ensures |after.tunnels| == |before.tunnels|
    ensures var was := EndpointOf(live.tunnels, before.tunnels[i].name);
            after.tunnels[i] == if keep && was.Some? && was.value != "" then before.tunnels[i].(endpoint := was.value) else before.tunnels[i]
  {
    assert Lookup(r.interfaces, before.tunnels[i].name) == if keep then EndpointOf(live.tunnels, before.tunnels[i].name) else None;
  }

  lemma {:induction false} SparesHaveTunnel(tunnels: seq<Tunnel>, hosts: seq<HostRow>, name: string)
    requires SparesNamed(tunnels, hosts, name) != []
    ensures EndpointOf(tunnels, name).Some?
  {
    var n := |hosts| - 1;
    if NameOf(tunnels, hosts[n].tunnel) == Some(name) {
      NamedHasEndpoint(tunnels, hosts[n].tunnel, name);
    } else {
      SparesHaveTunnel(tunnels, hosts[..n], name);
    }
  }

  lemma {:induction false} NamedHasEndpoint(tunnels: seq<Tunnel>, id: nat, name: string)
    requires NameOf(tunnels, id) == Some(name)
    ensures EndpointOf(tunnels, name).Some?
  {
    if tunnels[|tunnels| - 1].id != id {
      NamedHasEndpoint(tunnels[..|tunnels| - 1], id, name);
    }
  }

  /** A restored tunnel's spares are replaced as a whole exactly when the live panel had some under its name:
      they are then those, each switched on. */
  lemma SparesReplaced(r: Record, live: Tables, keep: bool, before: Tables, after: Tables, i: nat)
    requires ReadFrom(r, live, keep) && PutBack(r, before, after) && i < |before.tunnels| && DistinctIds(before.tunnels)
    ensures var had := SparesNamed(live.tunnels, live.hosts, before.tunnels[i].name);
            RowsOf(after.hosts, before.tunnels[i].id)
              == if keep && had != [] then InsertedAll(before.tunnels[i].id, had) else RowsOf(before.hosts, before.tunnels[i].id)
  {
    var t := before.tunnels[i];
    var had := SparesNamed(live.tunnels, live.hosts, t.name);
    SparesAfter(r, before.tunnels, before.hosts, t.id);
    assert Lookup(r.hosts, t.name) == if keep && had != [] then Some(had) else None;
    assert Lookup(r.interfaces, t.name) == if keep then EndpointOf(live.tunnels, t.name) else None;
    if keep && had != [] {
      SparesHaveTunnel(live.tunnels, live.hosts, t.name);
    }
  }

  /** The rows of a name, whichever tunnels of that name they are for. */
  function RowsNamed(tunnels: seq<Tunnel>, hosts: seq<HostRow>, name: string): seq<HostRow> {
    if hosts == [] then []
    else
      RowsNamed(tunnels, hosts[..|hosts| - 1], name)
      + if NameOf(tunnels, hosts[|hosts| - 1].tunnel) == Some(name) then [hosts[|hosts| - 1]] else []
  }

  /** The same rows, of another tunnel. */
  function Rehomed(rows: seq<HostRow>, id: nat): seq<HostRow> {
    seq(|rows|, i requires 0 <= i < |rows| => rows[i].(tunnel := id))
  }

  /** A row a put-back can give back: switched on, and nothing in the columns that are not carried. */
  predicate Carried(row: HostRow) {
    row.spare.enabled && row.extra == ""
  }

  lemma {:induction false} NamedRows(tunnels: seq<Tunnel>, hosts: seq<HostRow>, name: string)
    ensures var rows, spares := RowsNamed(tunnels, hosts, name), SparesNamed(tunnels, hosts, name);
            |rows| == |spares| && forall i :: 0 <= i < |rows| ==> rows[i].spare == spares[i]
  {
    if hosts != [] {
      NamedRows(tunnels, hosts[..|hosts| - 1], name);
    }
  }

  /** So the live panel's rows come back as they were, but for the tunnel they are of, exactly when each was
      switched on and had nothing in a column that is not carried. */
  lemma SparesAsTheyWereExactlyWhenCarried(r: Record, live: Tables, before: Tables, after: Tables, i: nat)
    requires ReadFrom(r, live, true) && PutBack(r, before, after) && i < |before.tunnels| && DistinctIds(before.tunnels)
    requires RowsNamed(live.tunnels, live.hosts, before.tunnels[i].name) != []
    ensures var had := RowsNamed(live.tunnels, live.hosts, before.tunnels[i].name);
            RowsOf(after.hosts, before.tunnels[i].id) == Rehomed(had, before.tunnels[i].id) <==>
              forall k :: 0 <= k < |had| ==> Carried(had[k])
  {
    hide PutBack, ReadFrom;
    var t := before.tunnels[i];
    NamedRows(live.tunnels, live.hosts, t.name);
    SparesReplaced(r, live, true, before, after, i);
    var had, spares := RowsNamed(live.tunnels, live.hosts, t.name), SparesNamed(live.tunnels, live.hosts, t.name);
    var now := InsertedAll(t.id, spares);
    assert RowsOf(after.hosts, t.id) == now && |now| == |had|;
    forall k | 0 <= k < |had| ensures now[k] == Rehomed(had, t.id)[k] <==> Carried(had[k]) {
      assert now[k] == Inserted(t.id, had[k].spare);
    }
    if !(forall k :: 0 <= k < |had| ==> Carried(had[k])) {
      var k :| 0 <= k < |had| && !Carried(had[k]);
      assert now[k] != Rehomed(had, t.id)[k];
    }
  }

  /** Spares of tunnels that are not restored ones are left alone. */
  lemma OtherSparesStay(r: Record, before: Tables, after: Tables, id: nat)
    requires PutBack(r, before, after) && DistinctIds(before.tunnels) && forall t :: t in before.tunnels ==> t.id != id
    ensures RowsOf(after.hosts, id) == RowsOf(before.hosts, id)
  {
    SparesAfter(r, before.tunnels, before.hosts, id);
  }

  /** With the addresses not kept, only how the panel is reached is put back. */
  lemma CloneTakesArchive(r: Record, live: Tables, before: Tables, after: Tables)
    requires ReadFrom(r, live, false) && PutBack(r, before, after)
    ensures after.tunnels == before.tunnels && after.hosts == before.hosts && after.nodes == before.nodes
  {
    NoneReplaced(r, before.tunnels, before.hosts);
  }

  lemma {:induction false} NoneReplaced(r: Record, tunnels: seq<Tunnel>, hosts: seq<HostRow>)
    requires !Keeps(r)
    ensures HostsAfter(r, tunnels, hosts) == hosts
  {
    if tunnels != [] {
      NoneReplaced(r, tunnels[..|tunnels| - 1], hosts);
    }
  }

  // ---- the panel's database ----

  lemma NameOfNext(tunnels: seq<Tunnel>, t: Tunnel, id: nat)
    ensures NameOf(tunnels + [t], id) == if t.id == id then Some(t.name) else NameOf(tunnels, id)
    ensures EndpointOf(tunnels + [t], t.name) == Some(t.endpoint)
  {
    assert (tunnels + [t])[..|tunnels|] == tunnels;
  }

  lemma EndpointOfNext(tunnels: seq<Tunnel>, t: Tunnel, name: string)
    ensures EndpointOf(tunnels + [t], name) == if t.name == name then Some(t.endpoint) else EndpointOf(tunnels, name)
  {
    assert (tunnels + [t])[..|tunnels|] == tunnels;
  }

  /** The names and endpoints of the tunnels. */
  method ReadTunnels(tunnels: seq<Tunnel>) returns (byId: map<nat, string>, endpoints: map<string, string>)
    ensures forall id :: Lookup(byId, id) == NameOf(tunnels, id)
    ensures forall n :: Lookup(endpoints, n) == EndpointOf(tunnels, n)
  {
    byId, endpoints := map[], map[];
    for i := 0 to |tunnels|
      invariant forall id :: Lookup(byId, id) == NameOf(tunnels[..i], id)
      invariant forall n :: Lookup(endpoints, n) == EndpointOf(tunnels[..i], n)
    {
      var t := tunnels[i];
      assert tunnels[..i + 1] == tunnels[..i] + [t];
      byId, endpoints := byId[t.id := t.name], endpoints[t.name := t.endpoint];
      ghost var read := tunnels[..i + 1];
      forall id ensures Lookup(byId, id) == NameOf(read, id) {
        NameOfNext(tunnels[..i], t, id);
      }
      forall n ensures Lookup(endpoints, n) == EndpointOf(read, n) {
        EndpointOfNext(tunnels[..i], t, n);
      }
    }
    assert tunnels[..|tunnels|] == tunnels;
  }

  function SparesIn(hosts: map<string, seq<Spare>>, name: string): seq<Spare> {
    if name in hosts then hosts[name] else []
  }

  lemma SparesNamedNext(tunnels: seq<Tunnel>, hosts: seq<HostRow>, h: HostRow, name: string)
    ensures SparesNamed(tunnels, hosts + [h], name)
         == SparesNamed(tunnels, hosts, name) + if NameOf(tunnels, h.tunnel) == Some(name) then [h.spare] else []
  {
    assert (hosts + [h])[..|hosts|] == hosts;
  }

  /** The spares, under their tunnels' names; a row of no tunnel is passed over. */
  method ReadHosts(tunnels: seq<Tunnel>, rows: seq<HostRow>, byId: map<nat, string>) returns (hosts: map<string, seq<Spare>>)
    requires forall id :: Lookup(byId, id) == NameOf(tunnels, id)
    ensures forall n :: Lookup(hosts, n) == if SparesNamed(tunnels, rows, n) != [] then Some(SparesNamed(tunnels, rows, n)) else None
  {
    hosts := map[];
    for i := 0 to |rows|
      invariant forall n :: SparesIn(hosts, n) == SparesNamed(tunnels, rows[..i], n)
      invariant forall n :: n in hosts ==> hosts[n] != []
    {
      var h := rows[i];
      assert rows[..i + 1] == rows[..i] + [h];
      assert Lookup(byId, h.tunnel) == NameOf(tunnels, h.tunnel);
      ghost var was := hosts;
      if h.tunnel in byId {
        var name := byId[h.tunnel];
        hosts := hosts[name := SparesIn(hosts, name) + [h.spare]];
      }
      forall n ensures SparesIn(hosts, n) == SparesNamed(tunnels, rows[..i + 1], n) {
        SparesNamedNext(tunnels, rows[..i], h, n);
        assert SparesIn(was, n) == SparesNamed(tunnels, rows[..i], n);
      }
    }
    assert rows[..|rows|] == rows;
    forall n ensures Lookup(hosts, n) == if SparesNamed(tunnels, rows, n) != [] then Some(SparesNamed(tunnels, rows, n)) else None {
      assert SparesIn(hosts, n) == SparesNamed(tunnels, rows, n);
    }
  }

  /** The settings of a list that are there. */
  function Picked(s: Settings, keys: seq<Setting>): Settings {
    map k | k in s && k in keys :: s[k]
  }

  class Database {
    var settings: Settings
    var tunnels: seq<Tunnel>
    var hosts: seq<HostRow>
    var nodes: seq<NodeRow>
    var left: nat // how many more statements are carried out before one fails

    constructor (t: Tables, left: nat)
      ensures Now() == t && this.left == left
    {
      settings, tunnels, hosts, nodes := t.settings, t.tunnels, t.hosts, t.nodes;
      this.left := left;
    }

    function Now(): Tables
      reads this
    {
      Tables(settings, tunnels, hosts, nodes)
    }

    method FirstLocal() returns (address: string)
      ensures address == LocalNode(nodes)
    {
      for i := 0 to |nodes|
        invariant LocalNode(nodes) == LocalNode(nodes[i..])
      {
        assert nodes[i..][0] == nodes[i] && nodes[i..][1..] == nodes[i + 1..];
        if nodes[i].isLocal {
          return nodes[i].address;
        }
      }
      address := "";
    }

    method ReadLocalAddresses(keep: bool) returns (r: Record)
      ensures ReadFrom(r, Now(), keep)
    {
      var access := Picked(settings, ACCESS);
      if !keep {
        return Record(map[], map[], map[], "", Some(access), Some(false));
      }
      var byId, endpoints := ReadTunnels(tunnels);
      var spares := ReadHosts(tunnels, hosts, byId);
      var node := FirstLocal();
      r := Record(endpoints, spares, Picked(settings, BOUND), node, Some(access), Some(true));
    }

    /** One statement: carried out, or failed with nothing changed. */
    method Exec(s: Stmt) returns (ok: bool)
      modifies this
      ensures Went(old(Now()), old(left), [s], Now(), left, ok)
    {
      ghost var was, had := Now(), left;
      ok := left > 0;
      if ok {
        left := left - 1;
        var t := Do(Now(), s);
        settings, tunnels, hosts, nodes := t.settings, t.tunnels, t.hosts, t.nodes;
      }
      WentOne(was, had, s, Now(), left, ok);
    }

    /** Each of the settings by which the panel is reached: put back when the record has it, removed when not. */
    method ApplyAccess(access: Settings) returns (ok: bool)
      modifies this
      ensures Went(old(Now()), old(left), AccessStmts(access, ACCESS), Now(), left, ok)
    {
      hide Went, Do, Run;
      ghost var was, had := Now(), left;
      WentNone(was, had);
      for i := 0 to |ACCESS|
        invariant Went(was, had, AccessStmts(access, ACCESS)[..i], Now(), left, true)
      {
        ghost var mid, midLeft := Now(), left;
        assert AccessStmts(access, ACCESS)[..i + 1] == AccessStmts(access, ACCESS)[..i] + [AccessStmt(access, ACCESS[i])];
        ok := Exec(if ACCESS[i] in access then SaveSetting(ACCESS[i], access[ACCESS[i]]) else DeleteSetting(ACCESS[i]));
        WentThen(was, had, AccessStmts(access, ACCESS)[..i], mid, midLeft, true, [AccessStmt(access, ACCESS[i])], Now(), left, ok);
        if !ok {
          WentShort(was, had, AccessStmts(access, ACCESS), i + 1, Now(), left);
          return;
        }
      }
      assert AccessStmts(access, ACCESS)[..|ACCESS|] == AccessStmts(access, ACCESS);
      ok := true;
    }

    /** Replace a tunnel's spares as a whole. */
    method ReplaceSpares(id: nat, spares: seq<Spare>) returns (ok: bool)
      modifies this
      ensures Went(old(Now()), old(left), [ClearSpares(id)] + InsertStmts(id, spares), Now(), left, ok)
    {
      hide Went, Do, Run;
      ghost var was, had := Now(), left;
      ghost var plan := [ClearSpares(id)] + InsertStmts(id, spares);
      ok := Exec(ClearSpares(id));
      assert plan[..1] == [ClearSpares(id)];
      if !ok {
        WentShort(was, had, plan, 1, Now(), left);
        return;
      }
      for i := 0 to |spares|
        invariant Went(was, had, plan[..i + 1], Now(), left, true)
      {
        ghost var mid, midLeft := Now(), left;
        assert plan[..i + 2] == plan[..i + 1] + [InsertSpare(id, spares[i])];
        ok := Exec(InsertSpare(id, spares[i]));
        WentThen(was, had, plan[..i + 1], mid, midLeft, true, [InsertSpare(id, spares[i])], Now(), left, ok);
        if !ok {
          WentShort(was, had, plan, i + 2, Now(), left);
          return;
        }
      }
      assert plan[..|spares| + 1] == plan;
      ok := true;
    }

    /** One restored tunnel whose name is known: its endpoint, then its spares. A failure at the spares
        leaves it counted as known already. */
    method PutBackTunnel(r: Record, t: Tunnel) returns (counted: bool, ok: bool)
      requires t.name in r.interfaces
      modifies this
      ensures Went(old(Now()), old(left), EndpointStmts(r, t) + SpareStmts(r, t), Now(), left, ok)
      ensures ok ==> counted
    {
      hide Went, Do, Run;
      ghost var was, had := Now(), left;
      var endpoint := r.interfaces[t.name];
      WentNone(was, had);
      ok := true;
      if endpoint != "" && endpoint != t.endpoint {
        ok := Exec(SetEndpoint(t.id, endpoint));
      }
      ghost var mid, midLeft, first := Now(), left, ok;
      assert Went(was, had, EndpointStmts(r, t), mid, midLeft, first);
      WentNone(mid, midLeft);
      counted := ok;
      if ok && t.name in r.hosts {
        ok := ReplaceSpares(t.id, r.hosts[t.name]);
      }
      WentThen(was, had, EndpointStmts(r, t), mid, midLeft, first, SpareStmts(r, t), Now(), left, ok);
    }

    method PutBackTunnels(r: Record, restored: seq<Tunnel>) returns (kept: nat, unknown: nat, ok: bool)
      modifies this
      ensures Went(old(Now()), old(left), TunnelsStmts(r, restored), Now(), left, ok)
      ensures kept + unknown <= |restored| && kept == Known(r, restored[..kept + unknown])
      ensures ok ==> kept + unknown == |restored|
    {
      hide Went, Do, Run, EndpointStmts, SpareStmts;
      ghost var was, had := Now(), left;
      WentNone(was, had);
      kept, unknown := 0, 0;
      for n := 0 to |restored|
        invariant Went(was, had, TunnelsStmts(r, restored[..n]), Now(), left, true)
        invariant kept == Known(r, restored[..n]) && kept + unknown == n
      {
        var t := restored[n];
        assert restored[..n + 1][..n] == restored[..n];
        if t.name in r.interfaces {
          ghost var mid, midLeft := Now(), left;
          var counted;
          counted, ok := PutBackTunnel(r, t);
          WentThen(was, had, TunnelsStmts(r, restored[..n]), mid, midLeft, true,
                   EndpointStmts(r, t) + SpareStmts(r, t), Now(), left, ok);
          if counted {
            kept := kept + 1;
          }
          if !ok {
            LaterStmts(r, restored, n + 1);
            ghost var first := TunnelsStmts(r, restored[..n + 1]);
            assert TunnelsStmts(r, restored)[..|first|] == first;
            WentShort(was, had, TunnelsStmts(r, restored), |first|, Now(), left);
            return;
          }
        } else {
          UnknownDoesNothing(r, restored[..n], t);
          assert restored[..n + 1] == restored[..n] + [t];
          unknown := unknown + 1;
        }
      }
      assert restored[..|restored|] == restored;
      ok := true;
    }

    method PutBackSettings(m: Settings) returns (ghost order: seq<Setting>, ok: bool)
      modifies this
      ensures InOrder(order, m) && Went(old(Now()), old(left), SettingStmts(order, m), Now(), left, ok)
    {
      hide Went, Do, Run, InOrder, SettingStmts;
      ghost var was, had := Now(), left;
      WentNone(was, had);
      var keys := m.Keys;
      order := [];
      NoSettings(m);
      while keys != {}
        invariant keys <= m.Keys && Partly(order, keys, m)
        invariant Went(was, had, SettingStmts(order, m), Now(), left, true)
        decreases |keys|
      {
        var k :| k in keys;
        ghost var mid, midLeft := Now(), left;
        ok := Exec(SaveSetting(k, m[k]));
        WentThen(was, had, SettingStmts(order, m), mid, midLeft, true, [SaveSetting(k, m[k])], Now(), left, ok);
        OneMore(order, keys, m, k);
        order, keys := order + [k], keys - {k};
        if !ok {
          ghost var whole := Finished(order, keys, m);
          WentShort(was, had, SettingStmts(whole, m), |order|, Now(), left);
          return whole, false;
        }
      }
      PartlyEnds(order, m);
      ok := true;
    }

    /** What customers are handed: the tunnels in turn, then the settings, then this panel's own node. */
    method ApplyKept(r: Record) returns (kept: nat, unknown: nat, ok: bool, ghost order: seq<Setting>)
      modifies this
      ensures InOrder(order, r.settings) && Went(old(Now()), old(left), KeptPart(r, old(tunnels), order), Now(), left, ok)
      ensures kept + unknown <= |old(tunnels)| && kept == Known(r, old(tunnels)[..kept + unknown])
      ensures ok ==> kept + unknown == |old(tunnels)|
    {
      hide Went, Do, Run, InOrder, TunnelsStmts, SettingStmts, Known;
      ghost var was, had := Now(), left;
      kept, unknown := 0, 0;
      NoneKnown(r, tunnels);
      order := InSomeOrder(r.settings.Keys);
      InOrderParts(order, r.settings);
      ok := Exec(FindTunnels);
      ghost var plan, at, leftAt, okAt := [FindTunnels], Now(), left, ok;
      if ok {
        FindReads(was, had, at, leftAt);
        kept, unknown, ok := PutBackTunnels(r, tunnels);
      }
      WentThen(was, had, plan, at, leftAt, okAt, TunnelsStmts(r, was.tunnels), Now(), left, ok);
      plan, at, leftAt, okAt := plan + TunnelsStmts(r, was.tunnels), Now(), left, ok;
      if ok {
        order, ok := PutBackSettings(r.settings);
      }
      WentThen(was, had, plan, at, leftAt, okAt, SettingStmts(order, r.settings), Now(), left, ok);
      plan, at, leftAt, okAt := plan + SettingStmts(order, r.settings), Now(), left, ok;
      WentNone(at, leftAt);
      if ok && r.node != "" {
        ok := Exec(SetLocalNode(r.node));
      }
      WentThen(was, had, plan, at, leftAt, okAt, NodeStmts(r), Now(), left, ok);
    }

    /** Put one machine's addresses back. A statement that fails stops it there, with every one before it
        carried out and the error told. Counts the restored tunnels gone through, known by name or not. */
    method ApplyLocalAddresses(record: Option<Record>) returns (kept: nat, unknown: nat, ok: bool, ghost order: seq<Setting>)
      modifies this
      ensures record.None? ==> ok && Now() == old(Now()) && left == old(left)
      ensures record.Some? ==> InOrder(order, record.value.settings)
      ensures record.Some? ==> Went(old(Now()), old(left), Plan(record.value, old(tunnels), order), Now(), left, ok)
      ensures kept + unknown <= |old(tunnels)|
      ensures record.Some? ==> kept == Known(record.value, old(tunnels)[..kept + unknown])
      ensures ok ==> kept + unknown == if record.Some? && Keeps(record.value) then |old(tunnels)| else 0
    {
      hide Went, Do, Run, InOrder, AccessStmts, KeptPart, Known;
      kept, unknown, order := 0, 0, [];
      if record.None? {
        return 0, 0, true, [];
      }
      var r := record.value;
      ghost var was, had := Now(), left;
      NoneKnown(r, tunnels);
      order := InSomeOrder(r.settings.Keys);
      InOrderParts(order, r.settings);
      WentNone(was, had);
      ok := true;
      if r.access.Some? {
        ok := ApplyAccess(r.access.value);
      }
      ghost var reached, left0, ok0 := Now(), left, ok;
      assert Went(was, had, AccessPart(r), reached, left0, ok0);
      WentNone(reached, left0);
      if ok && Keeps(r) {
        AccessKeepsTunnels(was, had, r, reached, left0);
        kept, unknown, ok, order := ApplyKept(r);
      }
      WentThen(was, had, AccessPart(r), reached, left0, ok0,
               if Keeps(r) then KeptPart(r, was.tunnels, order) else [], Now(), left, ok);
    }
  }

  lemma NoneKnown(r: Record, tunnels: seq<Tunnel>)
    ensures Known(r, tunnels[..0]) == 0
  {
  }

  /** These keys are through, and those are still to come. */
  ghost predicate Partly(order: seq<Setting>, keys: set<Setting>, m: Settings) {
    multiset(order) + multiset(keys) == multiset(m.Keys)
  }

  lemma NoSettings(m: Settings)
    ensures Partly([], m.Keys, m) && SettingStmts([], m) == []
  {
  }

  lemma OneMore(order: seq<Setting>, keys: set<Setting>, m: Settings, k: Setting)
    requires Partly(order, keys, m) && k in keys && k in m
    ensures Partly(order + [k], keys - {k}, m)
    ensures SettingStmts(order + [k], m) == SettingStmts(order, m) + [SaveSetting(k, m[k])]
  {
    assert multiset(keys) == multiset{k} + multiset(keys - {k});
  }

  lemma PartlyEnds(order: seq<Setting>, m: Settings)
    requires Partly(order, {}, m)
    ensures InOrder(order, m)
  {
  }

  ghost function Finished(order: seq<Setting>, keys: set<Setting>, m: Settings): (whole: seq<Setting>)
    requires Partly(order, keys, m)
    ensures InOrder(whole, m) && |order| <= |SettingStmts(whole, m)|
    ensures SettingStmts(whole, m)[..|order|] == SettingStmts(order, m)
  {
    order + InSomeOrder(keys)
  }

  lemma WentNone(t: Tables, left: nat)
    ensures Went(t, left, [], t, left, true)
  {
  }

  /** A failure in a plan's first statements is one of the plan. */
  lemma WentShort(before: Tables, left: nat, plan: seq<Stmt>, n: nat, after: Tables, leftAfter: nat)
    requires n <= |plan| && Went(before, left, plan[..n], after, leftAfter, false)
    ensures Went(before, left, plan, after, leftAfter, false)
  {
    assert plan[..n][..left] == plan[..left];
  }

  ghost function InSomeOrder(keys: set<Setting>): (order: seq<Setting>)
    ensures multiset(order) == multiset(keys)
  {
    if keys == {} then []
    else
      var k :| k in keys;
      assert multiset(keys) == multiset{k} + multiset(keys - {k});
      [k] + InSomeOrder(keys - {k})
  }

  lemma InOrderParts(order: seq<Setting>, m: Settings)
    requires multiset(order) == multiset(m.Keys)
    ensures InOrder(order, m)
  {
  }

  lemma UnknownDoesNothing(r: Record, tunnels: seq<Tunnel>, t: Tunnel)
    requires t.name !in r.interfaces
    ensures TunnelsStmts(r, tunnels + [t]) == TunnelsStmts(r, tunnels)
    ensures Known(r, tunnels + [t]) == Known(r, tunnels)
  {
    assert (tunnels + [t])[..|tunnels|] == tunnels;
  }

  /** The first tunnels' statements come first. */
  lemma {:induction false} LaterStmts(r: Record, tunnels: seq<Tunnel>, n: nat)
    requires n <= |tunnels|
    ensures TunnelsStmts(r, tunnels[..n]) <= TunnelsStmts(r, tunnels)
    decreases |tunnels|
  {
    if n < |tunnels| {
      var rest := tunnels[..|tunnels| - 1];
      assert rest[..n] == tunnels[..n];
      LaterStmts(r, rest, n);
    } else {
      assert tunnels[..n] == tunnels;
    }
  }

  lemma FindReads(before: Tables, left: nat, after: Tables, leftAfter: nat)
    requires Went(before, left, [FindTunnels], after, leftAfter, true)
    ensures after == before
  {
    RunOne(before, FindTunnels);
  }

  lemma {:induction false} RunsOnSettings(t: Tables, ss: seq<Stmt>)
    requires forall i :: 0 <= i < |ss| ==> ss[i].SaveSetting? || ss[i].DeleteSetting?
    ensures Run(t, ss) == t.(settings := Run(t, ss).settings)
  {
    if ss != [] {
      RunsOnSettings(t, ss[..|ss| - 1]);
    }
  }

  lemma AccessKeepsTunnels(before: Tables, left: nat, r: Record, after: Tables, leftAfter: nat)
    requires Went(before, left, AccessPart(r), after, leftAfter, true)
    ensures after.tunnels == before.tunnels
  {
    RunsOnSettings(before, AccessPart(r));
  }

  /** The tunnels after the first n have been gone through. */
  function Reached(r: Record, tunnels: seq<Tunnel>, n: nat): seq<Tunnel> {
    seq(|tunnels|, i requires 0 <= i < |tunnels| => if i < n then TunnelAfter(r, tunnels[i]) else tunnels[i])
  }

  lemma ReachedEnds(r: Record, tunnels: seq<Tunnel>)
    ensures Reached(r, tunnels, 0) == tunnels
    ensures Reached(r, tunnels, |tunnels|) == seq(|tunnels|, i requires 0 <= i < |tunnels| => TunnelAfter(r, tunnels[i]))
  {
  }

  lemma NoneReached(r: Record, tunnels: seq<Tunnel>)
    requires !Keeps(r)
    ensures seq(|tunnels|, i requires 0 <= i < |tunnels| => TunnelAfter(r, tunnels[i])) == tunnels
  {
  }

  lemma NotReached(r: Record, tunnels: seq<Tunnel>, n: nat)
    requires n < |tunnels| && tunnels[n].name !in r.interfaces
    ensures Reached(r, tunnels, n + 1) == Reached(r, tunnels, n)
  {
  }

  lemma ReachedNext(r: Record, tunnels: seq<Tunnel>, n: nat)
    requires Keeps(r) && n < |tunnels| && tunnels[n].name in r.interfaces && DistinctIds(tunnels)
    ensures var e := r.interfaces[tunnels[n].name];
            var was := Reached(r, tunnels, n);
            Reached(r, tunnels, n + 1) ==
              if e != "" && e != tunnels[n].endpoint then
                seq(|was|, i requires 0 <= i < |was| => if was[i].id == tunnels[n].id then was[i].(endpoint := e) else was[i])
              else was
  {
  }

  // ---- a put-back carried out whole ----

  lemma {:induction false} RunAccess(t: Tables, access: Settings, keys: seq<Setting>)
    ensures var u := Run(t, AccessStmts(access, keys));
            && u == t.(settings := u.settings)
            && forall k :: Lookup(u.settings, k) == if k in keys then Lookup(access, k) else Lookup(t.settings, k)
  {
    if keys != [] {
      var rest := keys[..|keys| - 1];
      assert keys == rest + [keys[|keys| - 1]];
      assert AccessStmts(access, keys)[..|keys| - 1] == AccessStmts(access, rest);
      RunAccess(t, access, rest);
    }
  }

  lemma {:induction false} RunSettings(t: Tables, order: seq<Setting>, m: Settings)
    requires forall k :: k in order ==> k in m
    ensures var u := Run(t, SettingStmts(order, m));
            && u == t.(settings := u.settings)
            && forall k :: Lookup(u.settings, k) == if k in order then Lookup(m, k) else Lookup(t.settings, k)
  {
    if order != [] {
      var rest := order[..|order| - 1];
      assert order == rest + [order[|order| - 1]];
      assert SettingStmts(order, m)[..|order| - 1] == SettingStmts(rest, m);
      RunSettings(t, rest, m);
    }
  }

  lemma {:induction false} RunInserts(t: Tables, id: nat, spares: seq<Spare>)
    ensures Run(t, InsertStmts(id, spares)) == t.(hosts := t.hosts + InsertedAll(id, spares))
  {
    if spares == [] {
      assert t.hosts + [] == t.hosts;
    } else {
      var rest := spares[..|spares| - 1];
      RunInserts(t, id, rest);
      assert InsertStmts(id, spares)[..|spares| - 1] == InsertStmts(id, rest);
      assert InsertedAll(id, spares) == InsertedAll(id, rest) + [Inserted(id, spares[|spares| - 1])];
      assert t.hosts + (InsertedAll(id, rest) + [Inserted(id, spares[|spares| - 1])])
          == t.hosts + InsertedAll(id, rest) + [Inserted(id, spares[|spares| - 1])];
    }
  }

  lemma RunSpares(r: Record, at: Tables, t: Tunnel)
    requires Keeps(r)
    ensures Run(at, SpareStmts(r, t))
         == at.(hosts := if Replaces(r, t) then Without(at.hosts, t.id) + InsertedAll(t.id, r.hosts[t.name]) else at.hosts)
  {
    if Replaces(r, t) {
      RunConcat(at, [ClearSpares(t.id)], InsertStmts(t.id, r.hosts[t.name]));
      RunOne(at, ClearSpares(t.id));
      RunInserts(Do(at, ClearSpares(t.id)), t.id, r.hosts[t.name]);
    }
  }

  lemma RunEndpoint(r: Record, at: Tables, tunnels: seq<Tunnel>, n: nat)
    requires Keeps(r) && n < |tunnels| && DistinctIds(tunnels) && at.tunnels == Reached(r, tunnels, n)
    ensures Run(at, EndpointStmts(r, tunnels[n])) == at.(tunnels := Reached(r, tunnels, n + 1))
  {
    var t := tunnels[n];
    if t.name in r.interfaces {
      ReachedNext(r, tunnels, n);
      RunOne(at, SetEndpoint(t.id, r.interfaces[t.name]));
    } else {
      NotReached(r, tunnels, n);
    }
  }

  lemma {:induction false} RunTunnels(r: Record, before: Tables, n: nat)
    requires Keeps(r) && DistinctIds(before.tunnels) && n <= |before.tunnels|
    ensures Run(before, TunnelsStmts(r, before.tunnels[..n]))
         == before.(tunnels := Reached(r, before.tunnels, n), hosts := HostsAfter(r, before.tunnels[..n], before.hosts))
  {
    hide Reached, EndpointStmts, SpareStmts, Replaces, Without, InsertedAll, Do;
    if n == 0 {
      ReachedEnds(r, before.tunnels);
    } else {
      var t := before.tunnels[n - 1];
      assert before.tunnels[..n][..n - 1] == before.tunnels[..n - 1];
      RunTunnels(r, before, n - 1);
      var at := Run(before, TunnelsStmts(r, before.tunnels[..n - 1]));
      RunConcat(before, TunnelsStmts(r, before.tunnels[..n - 1]), EndpointStmts(r, t) + SpareStmts(r, t));
      RunConcat(at, EndpointStmts(r, t), SpareStmts(r, t));
      RunEndpoint(r, at, before.tunnels, n - 1);
      RunSpares(r, Run(at, EndpointStmts(r, t)), t);
    }
  }

  lemma RunKept(r: Record, before: Tables, order: seq<Setting>)
    requires Keeps(r) && InOrder(order, r.settings) && DistinctIds(before.tunnels)
    ensures var after := Run(before, KeptPart(r, before.tunnels, order));
            && (forall k :: Lookup(after.settings, k) == if k in r.settings then Some(r.settings[k]) else Lookup(before.settings, k))
            && after.tunnels == Reached(r, before.tunnels, |before.tunnels|)
            && after.hosts == HostsAfter(r, before.tunnels, before.hosts)
            && after.nodes == if r.node != "" then WithLocalNode(before.nodes, r.node) else before.nodes
  {
    hide Reached, HostsAfter, TunnelsStmts, SettingStmts, WithLocalNode, InOrder;
    var tunnels, settings := TunnelsStmts(r, before.tunnels), SettingStmts(order, r.settings);
    OrderHolds(order, r.settings);
    RunConcat(before, [FindTunnels] + tunnels + settings, NodeStmts(r));
    RunConcat(before, [FindTunnels] + tunnels, settings);
    RunConcat(before, [FindTunnels], tunnels);
    RunOne(before, FindTunnels);
    assert before.tunnels[..|before.tunnels|] == before.tunnels;
    RunTunnels(r, before, |before.tunnels|);
    var mid := Run(before, tunnels);
    RunSettings(mid, order, r.settings);
    if r.node != "" {
      RunOne(Run(mid, settings), SetLocalNode(r.node));
    }
  }

  /** Every statement carried out, in whatever order the settings came: the record is put back. */
  lemma PlanPutsBack(r: Record, before: Tables, order: seq<Setting>)
    requires InOrder(order, r.settings) && DistinctIds(before.tunnels)
    ensures PutBack(r, before, Run(before, Plan(r, before.tunnels, order)))
  {
    hide HostsAfter, KeptPart, InOrder, Run, TunnelsStmts, AccessStmts;
    var mid := Run(before, AccessPart(r));
    assert mid.tunnels == before.tunnels && mid.hosts == before.hosts && mid.nodes == before.nodes
        && forall k :: Lookup(mid.settings, k) == if r.access.Some? && k in ACCESS then Lookup(r.access.value, k) else Lookup(before.settings, k) by {
      RunAccessPart(r, before);
    }
    RunConcat(before, AccessPart(r), if Keeps(r) then KeptPart(r, before.tunnels, order) else []);
    if Keeps(r) {
      RunKept(r, mid, order);
      ReachedEnds(r, before.tunnels);
    } else {
      RunNone(mid);
      NoneReplaced(r, before.tunnels, before.hosts);
      NoneReached(r, before.tunnels);
    }
  }

  lemma RunNone(t: Tables)
    ensures Run(t, []) == t
  {
  }

  lemma RunAccessPart(r: Record, before: Tables)
    ensures var mid := Run(before, AccessPart(r));
            && mid == before.(settings := mid.settings)
            && forall k :: Lookup(mid.settings, k)
                 == if r.access.Some? && k in ACCESS then Lookup(r.access.value, k) else Lookup(before.settings, k)
  {
    if r.access.Some? {
      RunAccess(before, r.access.value, ACCESS);
    }
  }

  // ---- a put-back stopped by a failing statement ----

  /** A statement that leaves a setting as it is. */
  predicate PassesOver(s: Stmt, key: Setting) {
    match s
    case SaveSetting(k, _) => k != key
    case DeleteSetting(k) => k != key
    case _ => true
  }

  lemma {:induction false} RunPassesOver(t: Tables, ss: seq<Stmt>, key: Setting)
    requires forall i :: 0 <= i < |ss| ==> PassesOver(ss[i], key)
    ensures Lookup(Run(t, ss).settings, key) == Lookup(t.settings, key)
  {
    if ss != [] {
      RunPassesOver(t, ss[..|ss| - 1], key);
    }
  }

  lemma {:induction false} TunnelsPassOver(r: Record, tunnels: seq<Tunnel>, key: Setting)
    ensures forall s :: s in TunnelsStmts(r, tunnels) ==> PassesOver(s, key)
  {
    if tunnels != [] {
      TunnelsPassOver(r, tunnels[..|tunnels| - 1], key);
    }
  }

  lemma KeptPassesOver(r: Record, tunnels: seq<Tunnel>, order: seq<Setting>, key: Setting)
    requires InOrder(order, r.settings) && key !in r.settings
    ensures forall s :: s in KeptPart(r, tunnels, order) ==> PassesOver(s, key)
  {
    OrderHolds(order, r.settings);
    TunnelsPassOver(r, tunnels, key);
  }

  lemma AccessDistinct(i: nat, j: nat)
    requires i < |ACCESS| && j < |ACCESS| && ACCESS[i] == ACCESS[j]
    ensures i == j
  {
  }

  /** Wherever a put-back stops, the settings by which the panel is reached are the live panel's as far as
      it came and the archive's from there on: from the twelfth statement on, whatever fails, all are back. */
  lemma AccessComesFirst(r: Record, live: Tables, keep: bool, before: Tables, order: seq<Setting>, k: nat, i: nat)
    requires ReadFrom(r, live, keep) && InOrder(order, r.settings) && i < |ACCESS|
    requires k <= |Plan(r, before.tunnels, order)|
    ensures Lookup(Run(before, Plan(r, before.tunnels, order)[..k]).settings, ACCESS[i])
         == Lookup(if i < k then live.settings else before.settings, ACCESS[i])
  {
    hide Run, KeptPart, InOrder;
    var access, plan := AccessStmts(r.access.value, ACCESS), Plan(r, before.tunnels, order);
    var key := ACCESS[i];
    assert Lookup(r.access.value, key) == Lookup(live.settings, key);
    assert key !in BOUND && Lookup(r.settings, key) == None;
    if k <= |ACCESS| {
      assert plan[..k] == AccessStmts(r.access.value, ACCESS[..k]);
      RunAccess(before, r.access.value, ACCESS[..k]);
      if key in ACCESS[..k] {
        var j :| 0 <= j < k && ACCESS[..k][j] == key;
        AccessDistinct(i, j);
      }
      assert i < k ==> ACCESS[..k][i] == key;
    } else {
      var later := KeptPart(r, before.tunnels, order)[..k - |ACCESS|];
      assert plan[..k] == access + later;
      RunConcat(before, access, later);
      RunAccess(before, r.access.value, ACCESS);
      KeptPassesOver(r, before.tunnels, order, key);
      assert forall j :: 0 <= j < |later| ==> later[j] in KeptPart(r, before.tunnels, order);
      RunPassesOver(Run(before, access), later, key);
    }
  }

  /** What statements do to one tunnel's spares. */
  function RowsRun(ss: seq<Stmt>, id: nat, was: seq<HostRow>): seq<HostRow> {
    if ss == [] then was
    else
      var before := RowsRun(ss[..|ss| - 1], id, was);
      match ss[|ss| - 1]
      case ClearSpares(at) => if at == id then [] else before
      case InsertSpare(at, spare) => if at == id then before + [Inserted(at, spare)] else before
      case _ => before
  }

  lemma {:induction false} RowsAfterRun(t: Tables, ss: seq<Stmt>, id: nat)
    ensures RowsOf(Run(t, ss).hosts, id) == RowsRun(ss, id, RowsOf(t.hosts, id))
  {
    if ss != [] {
      RowsAfterRun(t, ss[..|ss| - 1], id);
      var mid := Run(t, ss[..|ss| - 1]);
      match ss[|ss| - 1] {
        case ClearSpares(at) => SparesWithout(mid.hosts, at, id);
        case InsertSpare(at, spare) => RowsOfConcat(mid.hosts, [Inserted(at, spare)], id);
        case _ =>
      }
    }
  }

  lemma {:induction false} RowsRunConcat(a: seq<Stmt>, b: seq<Stmt>, id: nat, was: seq<HostRow>)
    ensures RowsRun(a + b, id, was) == RowsRun(b, id, RowsRun(a, id, was))
  {
    if b == [] {
      assert a + b == a;
    } else {
      assert (a + b)[..|a + b| - 1] == a + b[..|b| - 1];
      RowsRunConcat(a, b[..|b| - 1], id, was);
    }
  }

  predicate LeavesSpares(s: Stmt, id: nat) {
    match s
    case ClearSpares(at) => at != id
    case InsertSpare(at, _) => at != id
    case _ => true
  }

  lemma {:induction false} RowsRunIdle(ss: seq<Stmt>, id: nat, was: seq<HostRow>)
    requires forall i :: 0 <= i < |ss| ==> LeavesSpares(ss[i], id)
    ensures RowsRun(ss, id, was) == was
  {
    if ss != [] {
      RowsRunIdle(ss[..|ss| - 1], id, was);
    }
  }

  lemma {:induction false} RowsRunInserts(id: nat, spares: seq<Spare>, was: seq<HostRow>)
    ensures RowsRun(InsertStmts(id, spares), id, was) == was + InsertedAll(id, spares)
  {
    if spares == [] {
      assert was + InsertedAll(id, []) == was;
    } else {
      var rest, last := spares[..|spares| - 1], spares[|spares| - 1];
      RowsRunInserts(id, rest, was);
      assert InsertStmts(id, spares)[..|spares| - 1] == InsertStmts(id, rest);
      assert InsertedAll(id, spares) == InsertedAll(id, rest) + [Inserted(id, last)];
      assert was + (InsertedAll(id, rest) + [Inserted(id, last)]) == was + InsertedAll(id, rest) + [Inserted(id, last)];
    }
  }

  /** Untouched, or some of the record's spares for the name, from the first. */
  ghost predicate OneSide(r: Record, t: Tunnel, was: seq<HostRow>, now: seq<HostRow>) {
    now == was || (t.name in r.hosts && now <= InsertedAll(t.id, r.hosts[t.name]))
  }

  /** Within one tunnel's own statements. */
  lemma TunnelIsOneSide(r: Record, t: Tunnel, k: nat, was: seq<HostRow>)
    requires k <= |EndpointStmts(r, t) + SpareStmts(r, t)|
    ensures OneSide(r, t, was, RowsRun((EndpointStmts(r, t) + SpareStmts(r, t))[..k], t.id, was))
  {
    hide RowsRun;
    var e, ss := EndpointStmts(r, t), EndpointStmts(r, t) + SpareStmts(r, t);
    if k <= |e| {
      RowsRunIdle(ss[..k], t.id, was);
    } else {
      var n := k - |e| - 1;
      var spares := r.hosts[t.name];
      var some := InsertStmts(t.id, spares[..n]);
      assert ss[..k] == e + ([ClearSpares(t.id)] + some);
      RowsRunConcat(e, [ClearSpares(t.id)] + some, t.id, was);
      RowsRunIdle(e, t.id, was);
      RowsRunConcat([ClearSpares(t.id)], some, t.id, was);
      RowsRunClear(t.id, was);
      RowsRunInserts(t.id, spares[..n], []);
      assert [] + InsertedAll(t.id, spares[..n]) == InsertedAll(t.id, spares)[..n];
    }
  }

  lemma RowsRunClear(id: nat, was: seq<HostRow>)
    ensures RowsRun([ClearSpares(id)], id, was) == []
  {
  }

  lemma OthersIdle(r: Record, t: Tunnel, id: nat)
    requires t.id != id
    ensures forall s :: s in EndpointStmts(r, t) + SpareStmts(r, t) ==> LeavesSpares(s, id)
  {
  }

  lemma {:induction false} AllOthersIdle(r: Record, tunnels: seq<Tunnel>, id: nat)
    requires forall t :: t in tunnels ==> t.id != id
    ensures forall s :: s in TunnelsStmts(r, tunnels) ==> LeavesSpares(s, id)
  {
    if tunnels != [] {
      AllOthersIdle(r, tunnels[..|tunnels| - 1], id);
      OthersIdle(r, tunnels[|tunnels| - 1], id);
    }
  }

  lemma {:induction false} TunnelsAreOneSide(r: Record, tunnels: seq<Tunnel>, k: nat, i: nat, was: seq<HostRow>)
    requires DistinctIds(tunnels) && i < |tunnels| && k <= |TunnelsStmts(r, tunnels)|
    ensures OneSide(r, tunnels[i], was, RowsRun(TunnelsStmts(r, tunnels)[..k], tunnels[i].id, was))
    decreases |tunnels|
  {
    hide EndpointStmts, SpareStmts, RowsRun, OneSide, LeavesSpares;
    var n, id := |tunnels| - 1, tunnels[i].id;
    var rest, t := tunnels[..n], tunnels[n];
    var first, own := TunnelsStmts(r, rest), EndpointStmts(r, t) + SpareStmts(r, t);
    if k <= |first| {
      assert TunnelsStmts(r, tunnels)[..k] == first[..k];
      if i < n {
        TunnelsAreOneSide(r, rest, k, i, was);
      } else {
        AllOthersIdle(r, rest, id);
        RowsRunIdle(first[..k], id, was);
        assert OneSide(r, t, was, was) by { Untouched(r, t, was); }
      }
    } else {
      var some := own[..k - |first|];
      assert TunnelsStmts(r, tunnels)[..k] == first + some;
      RowsRunConcat(first, some, id, was);
      if i < n {
        assert first[..|first|] == first;
        TunnelsAreOneSide(r, rest, |first|, i, was);
        OthersIdle(r, t, id);
        RowsRunIdle(some, id, RowsRun(first, id, was));
      } else {
        AllOthersIdle(r, rest, id);
        RowsRunIdle(first, id, was);
        TunnelIsOneSide(r, t, k - |first|, was);
      }
    }
  }

  lemma Untouched(r: Record, t: Tunnel, was: seq<HostRow>)
    ensures OneSide(r, t, was, was)
  {
  }

  lemma AccessIdle(access: Settings, keys: seq<Setting>, id: nat)
    ensures forall s :: s in AccessStmts(access, keys) ==> LeavesSpares(s, id)
  {
  }

  lemma RestIdle(r: Record, order: seq<Setting>, id: nat)
    ensures forall s :: s in SettingStmts(order, r.settings) + NodeStmts(r) ==> LeavesSpares(s, id)
  {
  }

  /** A prefix of three parts is a prefix of each. */
  lemma PrefixOfThree(a: seq<Stmt>, b: seq<Stmt>, c: seq<Stmt>, k: nat) returns (i: nat, j: nat, l: nat)
    requires k <= |a + b + c|
    ensures i <= |a| && j <= |b| && l <= |c| && (a + b + c)[..k] == a[..i] + b[..j] + c[..l]
  {
    i := Min(k, |a|);
    j := Min(k - i, |b|);
    l := k - i - j;
  }

  lemma IdleAround(a: seq<Stmt>, b: seq<Stmt>, c: seq<Stmt>, id: nat, was: seq<HostRow>)
    requires forall i :: 0 <= i < |a| ==> LeavesSpares(a[i], id)
    requires forall i :: 0 <= i < |c| ==> LeavesSpares(c[i], id)
    ensures RowsRun(a + b + c, id, was) == RowsRun(b, id, was)
  {
    hide RowsRun, LeavesSpares;
    RowsRunConcat(a + b, c, id, was);
    RowsRunConcat(a, b, id, was);
    RowsRunIdle(a, id, was);
    RowsRunIdle(c, id, RowsRun(b, id, was));
  }

  lemma PlanIsOneSide(r: Record, tunnels: seq<Tunnel>, order: seq<Setting>, k: nat, i: nat, was: seq<HostRow>)
    requires DistinctIds(tunnels) && i < |tunnels| && k <= |Plan(r, tunnels, order)|
    ensures if Keeps(r) then OneSide(r, tunnels[i], was, RowsRun(Plan(r, tunnels, order)[..k], tunnels[i].id, was))
            else RowsRun(Plan(r, tunnels, order)[..k], tunnels[i].id, was) == was
  {
    hide RowsRun, OneSide, TunnelsStmts, AccessStmts, LeavesSpares;
    var id := tunnels[i].id;
    var access := AccessPart(r);
    if r.access.Some? {
      AccessIdle(r.access.value, ACCESS, id);
    }
    if Keeps(r) {
      var a, b, c := access + [FindTunnels], TunnelsStmts(r, tunnels), SettingStmts(order, r.settings) + NodeStmts(r);
      assert Plan(r, tunnels, order) == a + b + c;
      FindIsIdle(id);
      RestIdle(r, order, id);
      var ka, kb, kc := PrefixOfThree(a, b, c, k);
      assert (forall j :: 0 <= j < ka ==> a[j] in access || a[j] == FindTunnels) && forall j :: 0 <= j < kc ==> c[j] in c;
      IdleAround(a[..ka], b[..kb], c[..kc], id, was);
      TunnelsAreOneSide(r, tunnels, kb, i, was);
    } else {
      assert Plan(r, tunnels, order)[..k] == access[..k];
      assert forall j :: 0 <= j < k ==> access[j] in access;
      RowsRunIdle(access[..k], id, was);
    }
  }

  lemma FindIsIdle(id: nat)
    ensures LeavesSpares(FindTunnels, id)
  {
  }

  /** Wherever a put-back stops, a restored tunnel's spares are all the archive's, or all the live panel's:
      the first of those, each switched on. They are never some of one and some of the other. */
  lemma SparesNeverMix(r: Record, live: Tables, keep: bool, before: Tables, order: seq<Setting>, k: nat, i: nat)
    requires ReadFrom(r, live, keep) && DistinctIds(before.tunnels) && i < |before.tunnels|
    requires k <= |Plan(r, before.tunnels, order)|
    ensures var t := before.tunnels[i];
            var now := RowsOf(Run(before, Plan(r, before.tunnels, order)[..k]).hosts, t.id);
            || now == RowsOf(before.hosts, t.id)
            || (keep && now <= InsertedAll(t.id, SparesNamed(live.tunnels, live.hosts, t.name)))
  {
    hide Run, Plan, RowsRun;
    var t := before.tunnels[i];
    RowsAfterRun(before, Plan(r, before.tunnels, order)[..k], t.id);
    PlanIsOneSide(r, before.tunnels, order, k, i, RowsOf(before.hosts, t.id));
    assert Lookup(r.hosts, t.name)
        == if keep && SparesNamed(live.tunnels, live.hosts, t.name) != [] then Some(SparesNamed(live.tunnels, live.hosts, t.name)) else None;
  }
}
