/**
  Device guides with one file's values in them, and the customer's page, which
  shows them without the sign-in. The catalogue is any sequence of guides.
 */
module Guide {
  import opened Prelude
  import ListField

  datatype Protocol = WireGuard | OpenVPN | L2TP | L2TPPlain | PPTP | IKEv2Password | IKEv2PSK | IKEv2RSA | IKEv2TLS | OpenConnect

  predicate Withholds(p: Protocol) {
    !p.WireGuard? && !p.OpenVPN?
  }

  predicate Weak(p: Protocol) {
    p.L2TPPlain? || p.PPTP?
  }

  /** The kind of tunnel a file is for. */
  datatype Engine = EWireGuard | EOpenVPN | EL2TP | EPPTP | EOpenConnect | EIKEv2 | EOther

  datatype IKEv2Values = IKEv2Values(mschapv2: bool, psk: bool, rsa: bool, eapTls: bool, tlsIdentity: string, certFile: string, caFile: string)

  datatype WGValues = WGValues(privateKey: string, address: string, dns: string, mtu: nat, publicKey: string,
                               presharedKey: string, allowedIPs: string, keepalive: nat, amnezia: bool)

  datatype OCValues = OCValues(url: string, pin: string, untrusted: bool)

  /** One customer's file. */
  datatype Values = Values(engine: Engine, tunnel: string, server: string, others: seq<string>, serverIP: string, port: nat, ownPort: nat,
                           psk: string, allowPlain: bool, username: string, password: string, file: string,
                           wg: WGValues, serverID: string, ikev2: IKEv2Values, oc: OCValues)

  /** One way of connecting, with what a device is told for it. */
  function Served(v: Values): seq<Protocol> {
    match v.engine
    case EWireGuard => [WireGuard]
    case EOpenVPN => [OpenVPN]
    case EL2TP => if v.allowPlain then [L2TP, L2TPPlain] else [L2TP]
    case EPPTP => [PPTP]
    case EOpenConnect => [OpenConnect]
    case EIKEv2 =>
      (if v.ikev2.mschapv2 then [IKEv2Password] else []) + (if v.ikev2.psk then [IKEv2PSK] else [])
      + (if v.ikev2.rsa then [IKEv2RSA] else []) + (if v.ikev2.eapTls then [IKEv2TLS] else [])
    case EOther => []
  }

  /** Whether a file's sign-in is kept out of the page. */
  predicate FileWithholds(v: Values) {
    v.engine.EL2TP? || v.engine.EPPTP? || v.engine.EIKEv2? || v.engine.EOpenConnect?
  }

  datatype Source =
    | Fixed | Server | ServerIP | Port | Username | Password | PSK | TunnelPassword | Anything | Empty | File
    | WGPrivateKey | WGAddress | WGDNS | WGMTU | WGPublicKey | WGPresharedKey | WGAllowedIPs | WGKeepalive
    | RemoteID | TLSID | CertFile | CAFile | OCURL | OCPin

  datatype Field = Field(name: string, source: Source, value: string)

  datatype Setup = Setup(protocol: Protocol, path: string, fields: seq<Field>, notes: seq<string>,
                         command: Option<Values -> string>, noAmnezia: bool)

  datatype DeviceGuide = DeviceGuide(id: string, setups: seq<Setup>)

  datatype Secret = SecretUsername | SecretPassword | SecretPSK | SecretTLSID

  /** `key` names words the page has in each language, in which case `value` is the English. */
  datatype Row = Row(name: string, value: string, key: Option<Words>, copy: bool, secret: Option<Secret>)

  datatype Words = KeyAnything | KeyEmpty

  function English(w: Words): string {
    match w
    case KeyAnything => "any name"
    case KeyEmpty => "leave empty"
  }

  const MASK := "\U{2022}\U{2022}\U{2022}\U{2022}\U{2022}\U{2022}\U{2022}\U{2022}"

  /** The values with the sign-in replaced by the mask. */
  function Masked(v: Values): Values {
    v.(username := MASK, password := MASK,
       psk := if v.psk != "" then MASK else "",
       ikev2 := v.ikev2.(tlsIdentity := if v.ikev2.tlsIdentity != "" then MASK else ""))
  }

  /** What the mask of a field stands for; false where that is empty. */
  function SecretOf(v: Values, kind: Secret): (string, bool) {
    match kind
    case SecretUsername => (v.username, v.username != "")
    case SecretPassword => (v.password, v.password != "")
    case SecretPSK => (v.psk, v.psk != "")
    case SecretTLSID => (v.ikev2.tlsIdentity, v.ikev2.tlsIdentity != "")
  }

  /** The server can prove the key: it is not empty and has none of the characters its file cannot carry. */
  predicate TunnelSecretUsable(psk: string) {
    psk != "" && forall i :: 0 <= i < |psk| ==> psk[i] !in {'!', ';', '#', ' ', '\t'}
  }

  /** One field filled with a customer's values. */
  function FillRow(p: Protocol, f: Field, v: Values): Row {
    var blank := Row(f.name, "", None, false, None);
    var own := (val: string) => blank.(value := val, copy := true);
    var signIn := (val: string, kind: Secret) => own(val).(secret := if Withholds(p) then Some(kind) else None);
    var words := (w: Words) => blank.(value := English(w), key := Some(w));
    match f.source
    case Fixed => blank.(value := f.value)
    case Server => own(v.server)
    case ServerIP => own(if v.serverIP != "" then v.serverIP else v.server)
    case Port => own(ListField.Decimal(v.port))
    case Username => signIn(v.username, SecretUsername)
    case Password => signIn(v.password, SecretPassword)
    case PSK => signIn(v.psk, SecretPSK)
    case TunnelPassword =>
      // The mask is shown in a key's place, so it counts as a key that works.
      if v.psk == MASK || TunnelSecretUsable(v.psk) then signIn(v.psk, SecretPSK) else words(KeyEmpty)
    case Anything => words(KeyAnything)
    case Empty => words(KeyEmpty)
    case File => own(v.file).(copy := false)
    case WGPrivateKey => own(v.wg.privateKey)
    case WGAddress => own(v.wg.address)
    case WGDNS => own(v.wg.dns)
    case WGMTU => own(ListField.Decimal(v.wg.mtu))
    case WGPublicKey => own(v.wg.publicKey)
    case WGPresharedKey => own(v.wg.presharedKey)
    case WGAllowedIPs => own(v.wg.allowedIPs)
    case WGKeepalive => own(ListField.Decimal(v.wg.keepalive))
    case RemoteID => own(v.serverID)
    case TLSID => signIn(v.ikev2.tlsIdentity, SecretTLSID)
    case CertFile => own(v.ikev2.certFile).(copy := false)
    case CAFile => own(v.ikev2.caFile).(copy := false)
    case OCURL => own(v.oc.url)
    case OCPin => own(v.oc.pin)
  }

  function FillRows(s: Setup, v: Values): (rs: seq<Row>)
    ensures |rs| == |s.fields|
  {
    seq(|s.fields|, i requires 0 <= i < |s.fields| => FillRow(s.protocol, s.fields[i], v))
  }

  function SetupFor(g: DeviceGuide, p: Protocol): Option<Setup> {
    FirstSetup(g.setups, p)
  }

  function FirstSetup(ss: seq<Setup>, p: Protocol): (r: Option<Setup>)
    ensures r.Some? ==> r.value.protocol == p && r.value in ss
  {
    if ss == [] then None else if ss[0].protocol == p then Some(ss[0]) else FirstSetup(ss[1..], p)
  }

  datatype View = View(device: string, protocol: Protocol, path: string, rows: seq<Row>, notes: seq<string>, command: string, weak: bool)

  function Command(s: Setup, v: Values): string {
    if s.command.Some? then s.command.value(v) else ""
  }

  function ViewOf(g: DeviceGuide, s: Setup, p: Protocol, v: Values): View {
    View(g.id, p, s.path, FillRows(s, v), s.notes, Command(s, v), Weak(p))
  }

  /** The view of one device for one protocol of the file, if it has one. */
  function OneView(g: DeviceGuide, p: Protocol, v: Values): seq<View> {
    var s := SetupFor(g, p);
    if s.None? || (s.value.noAmnezia && v.wg.amnezia) then [] else [ViewOf(g, s.value, p, v)]
  }

  function DeviceViews(g: DeviceGuide, ps: seq<Protocol>, v: Values): seq<View> {
    if ps == [] then [] else DeviceViews(g, ps[..|ps| - 1], v) + OneView(g, ps[|ps| - 1], v)
  }

  /** The views of every device in the catalogue, for the protocols of one file. */
  function Views(catalogue: seq<DeviceGuide>, v: Values): seq<View> {
    if catalogue == [] then [] else Views(catalogue[..|catalogue| - 1], v) + DeviceViews(catalogue[|catalogue| - 1], Served(v), v)
  }

  // ---- the page ----

  function MaskRow(r: Row): Row {
    if r.secret.Some? then r.(value := MASK) else r
  }

  function MaskRows(rows: seq<Row>): (rs: seq<Row>)
    ensures |rs| == |rows|
  {
    seq(|rows|, i requires 0 <= i < |rows| => MaskRow(rows[i]))
  }

  /** One guide on the page; `secret` marks a command that the page does not hold, and asks for to copy it. */
  datatype PageView = PageView(device: string, protocol: Protocol, weak: bool, path: string, rows: seq<Row>, notes: seq<string>,
                               command: string, secret: bool)

  function Show(view: View, masked: Option<View>): PageView {
    var withheld := masked.Some? && masked.value.device == view.device && masked.value.protocol == view.protocol
                    && masked.value.command != view.command;
    PageView(view.device, view.protocol, view.weak, view.path, MaskRows(view.rows), view.notes,
             if withheld then masked.value.command else view.command, withheld)
  }

  /** The guides of one file as the page shows them: the views of the real values paired, by position, with
      the views of the masked ones. */
  function PageViews(catalogue: seq<DeviceGuide>, v: Values): (ps: seq<PageView>)
    ensures |ps| == |Views(catalogue, v)|
  {
    var views := Views(catalogue, v);
    var masked := if FileWithholds(v) then Views(catalogue, Masked(v)) else [];
    seq(|views|, n requires 0 <= n < |views| => Show(views[n], if n < |masked| then Some(masked[n]) else None))
  }

  /** What a reader of the page sees of a guide before any click. */
  function Seen(p: PageView): PageView {
    p.(secret := false)
  }

  /** The whole page as it is looked at. */
  function Page(catalogue: seq<DeviceGuide>, v: Values): (ps: seq<PageView>)
    ensures |ps| == |PageViews(catalogue, v)|
  {
    var ps := PageViews(catalogue, v);
    seq(|ps|, n requires 0 <= n < |ps| => Seen(ps[n]))
  }

  // ---- the two lists align ----

  /** Two views of the same guide: everything but rows and command is the same. */
  predicate SameGuide(a: View, b: View) {
    a.device == b.device && a.protocol == b.protocol && a.path == b.path && a.notes == b.notes && a.weak == b.weak
  }

  /** Values that no choice of guides can tell apart. */
  predicate SameShape(v: Values, w: Values) {
    Served(v) == Served(w) && v.wg.amnezia == w.wg.amnezia
  }

  /** View `n` is some setup of the catalogue, filled with these values, for a protocol the file is served by. */
  ghost predicate IsFilled(s: Setup, v: Values, view: View) {
    && view.rows == FillRows(s, v) && view.command == Command(s, v) && view.protocol == s.protocol && view.protocol in Served(v)
  }

  ghost predicate AlignedAt(v: Values, w: Values, a: View, b: View) {
    SameGuide(a, b) && exists s :: IsFilled(s, v, a) && IsFilled(s, w, b)
  }

  lemma {:induction false} DeviceAlign(g: DeviceGuide, ps: seq<Protocol>, v: Values, w: Values)
    requires SameShape(v, w) && forall p :: p in ps ==> p in Served(v)
    ensures var a, b := DeviceViews(g, ps, v), DeviceViews(g, ps, w);
            |a| == |b| && forall n :: 0 <= n < |a| ==> AlignedAt(v, w, a[n], b[n])
  {
    if ps != [] {
      var p := ps[|ps| - 1];
      DeviceAlign(g, ps[..|ps| - 1], v, w);
      var s := SetupFor(g, p);
      if s.Some? && !(s.value.noAmnezia && v.wg.amnezia) {
        assert IsFilled(s.value, v, ViewOf(g, s.value, p, v)) && IsFilled(s.value, w, ViewOf(g, s.value, p, w));
        assert AlignedAt(v, w, ViewOf(g, s.value, p, v), ViewOf(g, s.value, p, w));
      }
    }
  }

  /** For any catalogue, the views of two files served alike are the same guides at the same positions. */
  lemma {:induction false} ViewsAlign(catalogue: seq<DeviceGuide>, v: Values, w: Values)
    requires SameShape(v, w)
    ensures var a, b := Views(catalogue, v), Views(catalogue, w);
            |a| == |b| && forall n :: 0 <= n < |a| ==> AlignedAt(v, w, a[n], b[n])
  {
    if catalogue != [] {
      var init, g := catalogue[..|catalogue| - 1], catalogue[|catalogue| - 1];
      ViewsAlign(init, v, w);
      DeviceAlign(g, Served(v), v, w);
      AlignedConcat(v, w, Views(init, v), Views(init, w), DeviceViews(g, Served(v), v), DeviceViews(g, Served(w), w));
    }
  }

  lemma AlignedConcat(v: Values, w: Values, a: seq<View>, b: seq<View>, c: seq<View>, d: seq<View>)
    requires |a| == |b| && forall n :: 0 <= n < |a| ==> AlignedAt(v, w, a[n], b[n])
    requires |c| == |d| && forall n :: 0 <= n < |c| ==> AlignedAt(v, w, c[n], d[n])
    ensures |a + c| == |b + d| && forall n :: 0 <= n < |a + c| ==> AlignedAt(v, w, (a + c)[n], (b + d)[n])
  {
    hide AlignedAt;
    forall n | 0 <= n < |a + c| ensures AlignedAt(v, w, (a + c)[n], (b + d)[n]) {
      var k := n - |a|;
      assert n < |a| ==> AlignedAt(v, w, a[n], b[n]);
      assert n >= |a| ==> AlignedAt(v, w, c[k], d[k]);
    }
  }

  lemma MaskedShape(v: Values)
    ensures SameShape(v, Masked(v))
  {
  }

  // ---- what the page withholds ----

  /** Two customers' files that differ in the sign-in alone: the same otherwise, with the same parts of it
      empty, and a key the server can prove or cannot alike. */
  predicate SameButSignIn(v: Values, w: Values) {
    Masked(v) == Masked(w) && TunnelSecretUsable(v.psk) == TunnelSecretUsable(w.psk)
  }

  lemma MaskIsUsable()
    ensures TunnelSecretUsable(MASK)
  {
    assert forall i :: 0 <= i < |MASK| ==> MASK[i] == '\U{2022}';
  }

  lemma MaskedRowsSame(s: Setup, v: Values, w: Values)
    requires SameButSignIn(v, w) && Withholds(s.protocol)
    ensures MaskRows(FillRows(s, v)) == MaskRows(FillRows(s, w))
  {
    hide TunnelSecretUsable;
    MaskIsUsable();
    forall i | 0 <= i < |s.fields|
      ensures MaskRow(FillRow(s.protocol, s.fields[i], v)) == MaskRow(FillRow(s.protocol, s.fields[i], w))
    {
      assert v.server == w.server && v.wg == w.wg && v.oc == w.oc && v.file == w.file && v.port == w.port by {
        assert Masked(v).server == Masked(w).server && Masked(v).wg == Masked(w).wg;
      }
      assert v.serverIP == Masked(v).serverIP && v.serverID == Masked(v).serverID;
      assert v.ikev2.certFile == Masked(v).ikev2.certFile && v.ikev2.caFile == Masked(v).ikev2.caFile;
    }
  }

  lemma ServedWithhold(v: Values, p: Protocol)
    requires FileWithholds(v) && p in Served(v)
    ensures Withholds(p)
  {
  }

  /** The command shown is always the masked values' own. */
  lemma ShownCommand(catalogue: seq<DeviceGuide>, v: Values, n: nat)
    requires FileWithholds(v) && n < |Views(catalogue, v)|
    ensures n < |Views(catalogue, Masked(v))|
    ensures PageViews(catalogue, v)[n].command == Views(catalogue, Masked(v))[n].command
  {
    MaskedShape(v);
    ViewsAlign(catalogue, v, Masked(v));
    assert AlignedAt(v, Masked(v), Views(catalogue, v)[n], Views(catalogue, Masked(v))[n]);
  }

  /** Guide `n` has a command that the sign-in changes: one the mask takes the place of. */
  predicate CommandHides(catalogue: seq<DeviceGuide>, v: Values, n: nat) {
    var views, masked := Views(catalogue, v), Views(catalogue, Masked(v));
    n < |views| && n < |masked| && masked[n].command != views[n].command
  }

  /** At one position, everything but the mark of a command's copy is the same, and the mark is
      whether the command hides something. */
  lemma SeenAlike(catalogue: seq<DeviceGuide>, v: Values, w: Values, n: nat)
    requires FileWithholds(v) && FileWithholds(w) && SameShape(v, w) && SameButSignIn(v, w)
    requires n < |Views(catalogue, v)|
    ensures n < |Views(catalogue, w)|
    ensures Seen(PageViews(catalogue, v)[n]) == Seen(PageViews(catalogue, w)[n])
  {
    hide Masked, FillRows, Served, FileWithholds;
    ViewsAlign(catalogue, v, w);
    var a, b := Views(catalogue, v), Views(catalogue, w);
    assert AlignedAt(v, w, a[n], b[n]);
    var s :| IsFilled(s, v, a[n]) && IsFilled(s, w, b[n]);
    ServedWithhold(v, s.protocol);
    MaskedRowsSame(s, v, w);
    ShownCommand(catalogue, v, n);
    ShownCommand(catalogue, w, n);
  }

  lemma MarkIs(catalogue: seq<DeviceGuide>, v: Values, n: nat)
    requires FileWithholds(v) && n < |Views(catalogue, v)|
    ensures PageViews(catalogue, v)[n].secret <==> CommandHides(catalogue, v, n)
  {
    hide Masked, Served, FileWithholds;
    MaskedShape(v);
    ViewsAlign(catalogue, v, Masked(v));
    assert AlignedAt(v, Masked(v), Views(catalogue, v)[n], Views(catalogue, Masked(v))[n]);
  }

  /** A page that withholds the sign-in shows the same to two customers who differ in the sign-in alone:
      every guide, every row and every command, at every position, whatever the catalogue. What is behind
      it, the mark of a command copied by asking, is the same too exactly when the same guides have a command
      the mask changes. */
  lemma PageHidesSignIn(catalogue: seq<DeviceGuide>, v: Values, w: Values)
    requires FileWithholds(v) && SameButSignIn(v, w)
    ensures Page(catalogue, v) == Page(catalogue, w)
    ensures PageViews(catalogue, v) == PageViews(catalogue, w)
       <==> forall n :: 0 <= n < |Views(catalogue, v)| ==> (CommandHides(catalogue, v, n) <==> CommandHides(catalogue, w, n))
  {
    assert SameShape(v, w) && FileWithholds(w) by {
      MaskedShape(v);
      MaskedShape(w);
      assert v.wg == Masked(v).wg && w.wg == Masked(w).wg && v.engine == Masked(v).engine && w.engine == Masked(w).engine;
    }
    hide Views, Masked, Served, FileWithholds, SameButSignIn, CommandHides;
    ViewsAlign(catalogue, v, w);
    var a, b := PageViews(catalogue, v), PageViews(catalogue, w);
    forall n | 0 <= n < |a|
      ensures Seen(a[n]) == Seen(b[n])
      ensures a[n].secret <==> CommandHides(catalogue, v, n)
      ensures b[n].secret <==> CommandHides(catalogue, w, n)
    {
      SeenAlike(catalogue, v, w, n);
      MarkIs(catalogue, v, n);
      MarkIs(catalogue, w, n);
    }
    if forall n :: 0 <= n < |a| ==> (CommandHides(catalogue, v, n) <==> CommandHides(catalogue, w, n)) {
      assert forall n :: 0 <= n < |a| ==> a[n] == Seen(a[n]).(secret := a[n].secret) == Seen(b[n]).(secret := b[n].secret) == b[n];
    }
  }

  /** A row marked as a secret holds that secret's value, and `SecretOf` says whether there is one. */
  lemma RowSecret(p: Protocol, f: Field, v: Values)
    ensures var row := FillRow(p, f, v);
            row.secret.Some? ==> SecretOf(v, row.secret.value) == (row.value, row.value != "")
  {
  }

  /** Every row of the page comes from some field of a setup the file is served by. */
  lemma RowComesFrom(catalogue: seq<DeviceGuide>, v: Values, n: nat, i: nat) returns (p: Protocol, f: Field)
    requires n < |Views(catalogue, v)| && i < |Views(catalogue, v)[n].rows|
    ensures Views(catalogue, v)[n].rows[i] == FillRow(p, f, v) && p in Served(v)
  {
    ViewsAlign(catalogue, v, v);
    assert AlignedAt(v, v, Views(catalogue, v)[n], Views(catalogue, v)[n]);
    var s :| IsFilled(s, v, Views(catalogue, v)[n]);
    p, f := s.protocol, s.fields[i];
  }

  /** The copy button of a masked row hands out exactly the value the mask stands for, and nothing for an empty one. */
  lemma SecretOfMaskedRow(catalogue: seq<DeviceGuide>, v: Values, n: nat, i: nat)
    requires n < |Views(catalogue, v)| && i < |Views(catalogue, v)[n].rows|
    requires Views(catalogue, v)[n].rows[i].secret.Some?
    ensures var row := Views(catalogue, v)[n].rows[i];
            && SecretOf(v, row.secret.value) == (row.value, row.value != "")
            && PageViews(catalogue, v)[n].rows[i] == row.(value := MASK)
  {
    var p, f := RowComesFrom(catalogue, v, n, i);
    RowSecret(p, f, v);
  }

  // ---- copying a withheld command ----

  /** The command a copy button names by device and protocol: the first such view whose command the page withholds. */
  function RevealFrom(views: seq<View>, masked: seq<View>, device: string, p: Protocol): Option<string>
    decreases |views|
  {
    if views == [] then None
    else if views[0].device == device && views[0].protocol == p && views[0].command != ""
            && masked != [] && masked[0].command != views[0].command then Some(views[0].command)
    else RevealFrom(views[1..], if masked == [] then [] else masked[1..], device, p)
  }

  function Reveal(catalogue: seq<DeviceGuide>, v: Values, device: string, p: Protocol): Option<string> {
    if !FileWithholds(v) then None
    else RevealFrom(Views(catalogue, v), Views(catalogue, Masked(v)), device, p)
  }

  lemma {:induction false} RevealIs(views: seq<View>, masked: seq<View>, n: nat)
    requires |masked| == |views| && n < |views|
    requires forall j, k :: 0 <= j < k < |views| ==> views[j].device != views[k].device || views[j].protocol != views[k].protocol
    ensures RevealFrom(views, masked, views[n].device, views[n].protocol)
         == if views[n].command != "" && masked[n].command != views[n].command then Some(views[n].command) else None
    decreases |views|
  {
    var d, p := views[n].device, views[n].protocol;
    if n > 0 {
      RevealIs(views[1..], masked[1..], n - 1);
    } else {
      RevealNone(views[1..], masked[1..], d, p);
    }
  }

  lemma {:induction false} RevealNone(views: seq<View>, masked: seq<View>, device: string, p: Protocol)
    requires forall k :: 0 <= k < |views| ==> views[k].device != device || views[k].protocol != p
    ensures RevealFrom(views, masked, device, p) == None
    decreases |views|
  {
    if views != [] {
      RevealNone(views[1..], if masked == [] then [] else masked[1..], device, p);
    }
  }

  predicate DistinctDevices(catalogue: seq<DeviceGuide>) {
    forall j, k :: 0 <= j < k < |catalogue| ==> catalogue[j].id != catalogue[k].id
  }

  ghost predicate DistinctViews(views: seq<View>) {
    forall j, k :: 0 <= j < k < |views| ==> views[j].device != views[k].device || views[j].protocol != views[k].protocol
  }

  lemma {:induction false} DeviceViewsFacts(g: DeviceGuide, ps: seq<Protocol>, v: Values)
    requires forall j, k :: 0 <= j < k < |ps| ==> ps[j] != ps[k]
    ensures var vs := DeviceViews(g, ps, v);
            DistinctViews(vs) && forall n :: 0 <= n < |vs| ==> vs[n].device == g.id && vs[n].protocol in ps
  {
    if ps != [] {
      DeviceViewsFacts(g, ps[..|ps| - 1], v);
    }
  }

  lemma ServedDistinct(v: Values)
    ensures var ps := Served(v); forall j, k :: 0 <= j < k < |ps| ==> ps[j] != ps[k]
  {
  }

  lemma {:induction false} ViewsDistinct(catalogue: seq<DeviceGuide>, v: Values)
    requires DistinctDevices(catalogue)
    ensures DistinctViews(Views(catalogue, v))
    ensures forall n :: 0 <= n < |Views(catalogue, v)| ==> exists k :: 0 <= k < |catalogue| && Views(catalogue, v)[n].device == catalogue[k].id
  {
    if catalogue != [] {
      var init, g := catalogue[..|catalogue| - 1], catalogue[|catalogue| - 1];
      ViewsDistinct(init, v);
      ServedDistinct(v);
      DeviceViewsFacts(g, Served(v), v);
      var a, b := Views(init, v), DeviceViews(g, Served(v), v);
      forall n | 0 <= n < |a| ensures a[n].device != g.id && exists k :: 0 <= k < |catalogue| && a[n].device == catalogue[k].id {
        var k :| 0 <= k < |init| && a[n].device == init[k].id;
        assert catalogue[k] == init[k];
      }
      assert catalogue[|catalogue| - 1].id == g.id;
    }
  }

  /** In a catalogue that names each device once, the copy button of a guide shown with its command
      withheld hands out that guide's real command, and no other guide's button hands out anything. */
  lemma RevealsWithheldCommand(catalogue: seq<DeviceGuide>, v: Values, n: nat)
    requires DistinctDevices(catalogue) && FileWithholds(v) && n < |Views(catalogue, v)|
    ensures var view, shown := Views(catalogue, v)[n], PageViews(catalogue, v)[n];
            Reveal(catalogue, v, view.device, view.protocol)
              == if shown.secret && view.command != "" then Some(view.command) else None
  {
    ViewsDistinct(catalogue, v);
    MaskedShape(v);
    ViewsAlign(catalogue, v, Masked(v));
    var a, b := Views(catalogue, v), Views(catalogue, Masked(v));
    assert AlignedAt(v, Masked(v), a[n], b[n]);
    RevealIs(a, b, n);
  }

  // ---- the lists as they are built ----

  method BuildRows(s: Setup, v: Values) returns (out: seq<Row>)
    ensures out == FillRows(s, v)
  {
    out := [];
    for i := 0 to |s.fields|
      invariant |out| == i && forall k :: 0 <= k < i ==> out[k] == FillRow(s.protocol, s.fields[k], v)
    {
      out := out + [FillRow(s.protocol, s.fields[i], v)];
    }
  }

  /** The guides of one device, for the protocols a file is served. */
  method BuildDevice(g: DeviceGuide, v: Values) returns (out: seq<View>)
    ensures out == DeviceViews(g, Served(v), v)
  {
    var ps := Served(v);
    out := [];
    for j := 0 to |ps|
      invariant out == DeviceViews(g, ps[..j], v)
    {
      assert ps[..j + 1][..j] == ps[..j];
      var s := SetupFor(g, ps[j]);
      if s.Some? && !(s.value.noAmnezia && v.wg.amnezia) {
        var rows := BuildRows(s.value, v);
        var view := View(g.id, ps[j], s.value.path, rows, s.value.notes, "", Weak(ps[j]));
        if s.value.command.Some? {
          view := view.(command := s.value.command.value(v));
        }
        out := out + [view];
      }
    }
    assert ps[..|ps|] == ps;
  }

  method BuildViews(catalogue: seq<DeviceGuide>, v: Values) returns (out: seq<View>)
    ensures out == Views(catalogue, v)
  {
    out := [];
    for i := 0 to |catalogue|
      invariant out == Views(catalogue[..i], v)
    {
      var more := BuildDevice(catalogue[i], v);
      out := out + more;
      assert catalogue[..i + 1][..i] == catalogue[..i];
    }
    assert catalogue[..|catalogue|] == catalogue;
  }

  /** The guides of one file, with what the page withholds masked. */
  method BuildPage(catalogue: seq<DeviceGuide>, v: Values) returns (out: seq<PageView>)
    ensures out == PageViews(catalogue, v)
  {
    hide Views, Masked, FileWithholds, MaskRows;
    var views := BuildViews(catalogue, v);
    var masked: seq<View> := [];
    if FileWithholds(v) {
      masked := BuildViews(catalogue, Masked(v));
    }
    out := [];
    for n := 0 to |views|
      invariant |out| == n && forall k :: 0 <= k < n ==> out[k] == PageViews(catalogue, v)[k]
    {
      var view := views[n];
      var p := PageView(view.device, view.protocol, view.weak, view.path, MaskRows(view.rows), view.notes, view.command, false);
      if n < |masked| && masked[n].device == view.device && masked[n].protocol == view.protocol && masked[n].command != view.command {
        p := p.(command := masked[n].command, secret := true);
      }
      out := out + [p];
    }
  }
}
