/**
  The panel's own migrations, and replaying them over rows that a portable
  backup brought after they had run.
 */
module PanelMigrations {
  import opened Prelude
  import opened Migrations

  datatype Admin = Admin(id: nat, role: Option<string>)

  datatype Client = Client(id: nat, group: Option<string>)

  datatype GroupRow = GroupRow(client: nat, name: string)

  datatype Account = Account(id: nat, up: nat, down: nat, origin: nat)

  /** The rows the migrations touch; a column may be null. */
  datatype Rows = Rows(indexes: set<string>, admins: seq<Admin>, clients: seq<Client>, groups: seq<GroupRow>,
                       accounts: seq<Account>, settings: map<string, string>)

  const FILES_SINCE := "usage.files_since"

  function DropPanelWideIndex(d: Rows): Rows {
    d.(indexes := d.indexes - {"idx_groups_name", "uni_groups_name", "groups_name_key"})
  }

  predicate Blank(t: Option<string>) {
    t == None || t == Some("")
  }

  /** Whoever has no role owns the panel. */
  function Owned(a: Admin): Admin {
    if Blank(a.role) then a.(role := Some("owner")) else a
  }

  function AdminsOwn(d: Rows): Rows {
    d.(admins := seq(|d.admins|, i requires 0 <= i < |d.admins| => Owned(d.admins[i])))
  }

  predicate HasRow(groups: seq<GroupRow>, client: nat) {
    exists i :: 0 <= i < |groups| && groups[i].client == client
  }

  /** A row for every customer with a label and no row yet. */
  function LabelRows(clients: seq<Client>, groups: seq<GroupRow>): seq<GroupRow> {
    if clients == [] then []
    else
      (if Blank(clients[0].group) || HasRow(groups, clients[0].id) then [] else [GroupRow(clients[0].id, clients[0].group.value)])
      + LabelRows(clients[1..], groups)
  }

  function CarryLabels(d: Rows): Rows {
    d.(groups := d.groups + LabelRows(d.clients, d.groups))
  }

  function Zeroed(a: Account): Account {
    if a.origin == 0 then a.(up := 0, down := 0) else a
  }

  /** Counting starts from zero, once: when it has started is kept with the settings. */
  function StartExactUsage(at: string, d: Rows): Rows {
    if FILES_SINCE in d.settings then d
    else d.(accounts := seq(|d.accounts|, i requires 0 <= i < |d.accounts| => Zeroed(d.accounts[i])),
            settings := d.settings[FILES_SINCE := at])
  }

  function All(): seq<Migration<Rows>> {
    [Migration(1, "group names are unique per operator, not across the panel", true, (at, d) => Some(DropPanelWideIndex(d))),
     Migration(2, "whoever administered the panel before roles owns it", false, (at, d) => Some(AdminsOwn(d))),
     Migration(3, "a customer's group label becomes their first group", false, (at, d) => Some(CarryLabels(d))),
     Migration(4, "each file's usage is counted by the panel from now on", false, (at, d) => Some(StartExactUsage(at, d)))]
  }

  /** The panel's numbers are distinct, as running each once needs. */
  lemma NumbersDistinct()
    ensures DistinctIds(All())
  {
  }

  /** What `Replay` leaves when it lives through so many transactions. */
  function Restored(d: Rows, at: string, left: nat): Rows {
    Replayed(d, All(), at, left).0
  }

  lemma RestoredSteps(d: Rows, at: string, left: nat)
    ensures left >= 3 ==> Restored(d, at, left) == StartExactUsage(at, CarryLabels(AdminsOwn(d)))
    ensures left == 2 ==> Restored(d, at, left) == CarryLabels(AdminsOwn(d))
    ensures left == 1 ==> Restored(d, at, left) == AdminsOwn(d)
    ensures left == 0 ==> Restored(d, at, left) == d
    ensures Replayed(d, All(), at, left).1 <==> left >= 3
  {
    var ms := All();
    assert ms[1..][0] == ms[1] && ms[1..][1..] == ms[2..] && ms[2..][0] == ms[2] && ms[2..][1..] == ms[3..];
    assert ms[3..][0] == ms[3] && ms[3..][1..] == ms[4..] == [];
    assert Replayed(d, ms, at, left) == Replayed(d, ms[1..], at, left);
    if left >= 1 {
      assert Replayed(d, ms[1..], at, left) == Replayed(AdminsOwn(d), ms[2..], at, left - 1);
      if left >= 2 {
        assert Replayed(AdminsOwn(d), ms[2..], at, left - 1) == Replayed(CarryLabels(AdminsOwn(d)), ms[3..], at, left - 2);
      }
    }
  }

  lemma OwnTwice(d: Rows)
    ensures AdminsOwn(AdminsOwn(d)) == AdminsOwn(d)
  {
    assert AdminsOwn(AdminsOwn(d)).admins == AdminsOwn(d).admins;
  }

  lemma {:induction false} NoLabelRows(clients: seq<Client>, groups: seq<GroupRow>)
    requires forall i :: 0 <= i < |clients| ==> Blank(clients[i].group) || HasRow(groups, clients[i].id)
    ensures LabelRows(clients, groups) == []
  {
    if clients != [] {
      NoLabelRows(clients[1..], groups);
    }
  }

  lemma {:induction false} LabelRowsCover(clients: seq<Client>, groups: seq<GroupRow>, i: nat)
    requires i < |clients| && !Blank(clients[i].group)
    ensures HasRow(groups + LabelRows(clients, groups), clients[i].id)
  {
    if HasRow(groups, clients[i].id) {
      var k :| 0 <= k < |groups| && groups[k].client == clients[i].id;
      assert (groups + LabelRows(clients, groups))[k] == groups[k];
    } else {
      LabelRowsHave(clients, groups, i);
      var rows := LabelRows(clients, groups);
      var k :| 0 <= k < |rows| && rows[k] == GroupRow(clients[i].id, clients[i].group.value);
      assert (groups + rows)[|groups| + k] == rows[k];
    }
  }

  lemma {:induction false} LabelRowsHave(clients: seq<Client>, groups: seq<GroupRow>, i: nat)
    requires i < |clients| && !Blank(clients[i].group) && !HasRow(groups, clients[i].id)
    ensures GroupRow(clients[i].id, clients[i].group.value) in LabelRows(clients, groups)
  {
    if i > 0 {
      LabelRowsHave(clients[1..], groups, i - 1);
    }
  }

  lemma CarryTwice(d: Rows)
    ensures CarryLabels(CarryLabels(d)) == CarryLabels(d)
  {
    var after := CarryLabels(d);
    forall i | 0 <= i < |d.clients| ensures Blank(d.clients[i].group) || HasRow(after.groups, d.clients[i].id) {
      if !Blank(d.clients[i].group) {
        LabelRowsCover(d.clients, d.groups, i);
      }
    }
    NoLabelRows(d.clients, after.groups);
  }

  lemma StepsApart(d: Rows, at: string)
    ensures AdminsOwn(CarryLabels(d)) == CarryLabels(AdminsOwn(d))
    ensures AdminsOwn(StartExactUsage(at, d)) == StartExactUsage(at, AdminsOwn(d))
    ensures CarryLabels(StartExactUsage(at, d)) == StartExactUsage(at, CarryLabels(d))
  {
  }

  /** Replaying over any rows, after a replay that died anywhere or came through, gives what one replay
      gives; only a replay that came through the last step fixes the time counting starts. */
  lemma ReplayAgain(d: Rows, at: string, left: nat, at': string, left': nat)
    requires left' >= 3
    ensures Restored(Restored(d, at, left), at', left') == Restored(d, if left >= 3 then at else at', left')
  {
    RestoredSteps(d, at, left);
    RestoredSteps(Restored(d, at, left), at', left');
    RestoredSteps(d, at', left');
    RestoredSteps(d, at, left');
    OwnTwice(d);
    CarryTwice(AdminsOwn(d));
    var e := CarryLabels(AdminsOwn(d));
    StepsApart(AdminsOwn(d), at);
    StepsApart(e, at);
    OwnTwice(d);
    assert AdminsOwn(e) == e;
    assert StartExactUsage(at', StartExactUsage(at, e)) == StartExactUsage(at, e);
  }

  // ---- what a replay carries ----

  function GroupsOf(groups: seq<GroupRow>, client: nat): seq<string> {
    if groups == [] then []
    else (if groups[0].client == client then [groups[0].name] else []) + GroupsOf(groups[1..], client)
  }

  lemma {:induction false} GroupsOfConcat(a: seq<GroupRow>, b: seq<GroupRow>, client: nat)
    ensures GroupsOf(a + b, client) == GroupsOf(a, client) + GroupsOf(b, client)
  {
    if a == [] {
      assert a + b == b;
    } else {
      assert (a + b)[1..] == a[1..] + b;
      GroupsOfConcat(a[1..], b, client);
    }
  }

  lemma {:induction false} GroupsOfNone(groups: seq<GroupRow>, client: nat)
    ensures GroupsOf(groups, client) == [] <==> !HasRow(groups, client)
  {
    if groups != [] {
      GroupsOfNone(groups[1..], client);
      if HasRow(groups, client) {
        var i :| 0 <= i < |groups| && groups[i].client == client;
        assert i > 0 ==> groups[1..][i - 1].client == client;
      }
      if HasRow(groups[1..], client) {
        var i :| 0 <= i < |groups[1..]| && groups[1..][i].client == client;
        assert groups[i + 1].client == client;
      }
    }
  }

  predicate DistinctClients(clients: seq<Client>) {
    forall i, j :: 0 <= i < j < |clients| ==> clients[i].id != clients[j].id
  }

  lemma {:induction false} LabelRowsOf(clients: seq<Client>, groups: seq<GroupRow>, id: nat)
    requires DistinctClients(clients)
    ensures HasRow(groups, id) || (forall c :: c in clients && c.id == id ==> Blank(c.group)) ==> GroupsOf(LabelRows(clients, groups), id) == []
    ensures !HasRow(groups, id) ==> forall c :: c in clients && c.id == id && !Blank(c.group) ==> GroupsOf(LabelRows(clients, groups), id) == [c.group.value]
  {
    if clients != [] {
      assert DistinctClients(clients[1..]);
      LabelRowsOf(clients[1..], groups, id);
      var first := if Blank(clients[0].group) || HasRow(groups, clients[0].id) then [] else [GroupRow(clients[0].id, clients[0].group.value)];
      GroupsOfConcat(first, LabelRows(clients[1..], groups), id);
      assert forall c :: c in clients[1..] ==> c in clients && c.id != clients[0].id;
    }
  }

  /** A replay gives a customer their label as their one group when they have a label and no groups yet;
      everybody else's groups stay as they are. */
  lemma LabelsCarriedOnce(d: Rows, at: string, left: nat, c: Client)
    requires left >= 3 && DistinctClients(d.clients) && c in d.clients
    ensures GroupsOf(Restored(d, at, left).groups, c.id)
         == if GroupsOf(d.groups, c.id) == [] && !Blank(c.group) then [c.group.value] else GroupsOf(d.groups, c.id)
  {
    RestoredSteps(d, at, left);
    GroupsOfConcat(d.groups, LabelRows(d.clients, d.groups), c.id);
    GroupsOfNone(d.groups, c.id);
    LabelRowsOf(d.clients, d.groups, c.id);
    assert forall b :: b in d.clients && b.id == c.id ==> b == c;
  }

  /** A replay sets usage to zero exactly when no start of counting is on record, and never that of a file
      held for another panel. */
  lemma UsageZeroedOnce(d: Rows, at: string, left: nat, i: nat)
    requires left >= 3 && i < |d.accounts|
    ensures var r := Restored(d, at, left);
            && |r.accounts| == |d.accounts|
            && r.accounts[i] == (if FILES_SINCE in d.settings || d.accounts[i].origin != 0 then d.accounts[i] else d.accounts[i].(up := 0, down := 0))
            && FILES_SINCE in r.settings
            && (FILES_SINCE in d.settings ==> r.settings == d.settings)
  {
    RestoredSteps(d, at, left);
  }
}
