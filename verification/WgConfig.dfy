/**
 * The WireGuard configuration text, and what the receiving end makes of it
 * (the `set=1` operation of the cross-platform userspace API).
 */
module WgConfig {
  import opened Wrappers
  import opened Text
  import opened Decimal

  datatype WgPeer = WgPeer(publicKeyHex: string, endpoint: string, allowedIps: seq<string>,
                           persistentKeepalive: Option<nat>)

  datatype WgConfig = WgConfig(privateKeyHex: string, listenPort: Option<nat>, peers: seq<WgPeer>)

  // ---- keys ------------------------------------------------------------------

  datatype Key = PrivateKey | ListenPort | ReplacePeers | PublicKey | Endpoint | Keepalive | ReplaceAllowedIps | AllowedIp

  function Name(k: Key): string {
    match k
    case PrivateKey => "private_key"
    case ListenPort => "listen_port"
    case ReplacePeers => "replace_peers"
    case PublicKey => "public_key"
    case Endpoint => "endpoint"
    case Keepalive => "persistent_keepalive_interval"
    case ReplaceAllowedIps => "replace_allowed_ips"
    case AllowedIp => "allowed_ip"
  }

  /** The keys as the receiving end knows them. */
  function KeyNamed(s: string): Option<Key> {
    if s == "private_key" then Some(PrivateKey)
    else if s == "listen_port" then Some(ListenPort)
    else if s == "replace_peers" then Some(ReplacePeers)
    else if s == "public_key" then Some(PublicKey)
    else if s == "endpoint" then Some(Endpoint)
    else if s == "persistent_keepalive_interval" then Some(Keepalive)
    else if s == "replace_allowed_ips" then Some(ReplaceAllowedIps)
    else if s == "allowed_ip" then Some(AllowedIp)
    else None
  }

  lemma NamesAreTold(k: Key, other: Key)
    ensures Name(k) == Name(other) ==> k == other
  {
    assert |Name(PrivateKey)| == 11 && |Name(ListenPort)| == 11 && |Name(PublicKey)| == 10 && |Name(AllowedIp)| == 10;
    assert |Name(ReplacePeers)| == 13 && |Name(ReplaceAllowedIps)| == 19 && |Name(Endpoint)| == 8;
    assert Name(PrivateKey)[0] == 'p' && Name(ListenPort)[0] == 'l' && Name(PublicKey)[0] == 'p';
    assert Name(AllowedIp)[0] == 'a' && |Name(Keepalive)| == 29;
  }

  lemma KeyOfName(k: Key, s: string)
    requires s == Name(k)
    ensures KeyNamed(s) == Some(k)
  {
    forall other | s == Name(other) ensures other == k {
      NamesAreTold(k, other);
    }
  }

  lemma NameHasNoEquals(k: Key)
    ensures '=' !in Name(k)
  {
  }

  lemma KeysAreTold(k: Key)
    ensures KeyNamed(Name(k)) == Some(k) && '=' !in Name(k)
  {
    KeyOfName(k, Name(k));
    NameHasNoEquals(k);
  }

  function Line(k: Key, value: string): string {
    Name(k) + "=" + value
  }

  // ---- rendering -------------------------------------------------------------

  function AllowedLines(cidrs: seq<string>): seq<string> {
    seq(|cidrs|, i requires 0 <= i < |cidrs| => Line(AllowedIp, cidrs[i]))
  }

  function KeepaliveLine(p: WgPeer): seq<string> {
    if p.persistentKeepalive.Some? then [Line(Keepalive, Digits(p.persistentKeepalive.value))] else []
  }

  function PeerHead(p: WgPeer): seq<string> {
    [Line(PublicKey, p.publicKeyHex), Line(Endpoint, p.endpoint)] + KeepaliveLine(p) + [Line(ReplaceAllowedIps, "true")]
  }

  function PeerLines(p: WgPeer): seq<string> {
    PeerHead(p) + AllowedLines(p.allowedIps)
  }

  function PeersLines(peers: seq<WgPeer>): seq<string>
    decreases |peers|
  {
    if peers == [] then [] else PeersLines(peers[..|peers| - 1]) + PeerLines(peers[|peers| - 1])
  }

  function PortLine(c: WgConfig): seq<string> {
    if c.listenPort.Some? then [Line(ListenPort, Digits(c.listenPort.value))] else []
  }

  function InterfaceLines(c: WgConfig): seq<string> {
    [Line(PrivateKey, c.privateKeyHex)] + PortLine(c) + [Line(ReplacePeers, "true")]
  }

  function ConfigLines(c: WgConfig): seq<string> {
    ["set=1"] + (InterfaceLines(c) + PeersLines(c.peers))
  }

  method RenderUapi(c: WgConfig) returns (s: string)
    ensures s == Unlines(ConfigLines(c)) + "\n"
  {
    ghost var lines;
    s, lines := RenderInterface(c);
    s, lines := RenderPeers(s, lines, c.peers);
    Associate(["set=1"], InterfaceLines(c), PeersLines(c.peers));
    s := s + "\n";
  }

  method RenderPeers(s: string, ghost lines: seq<string>, peers: seq<WgPeer>)
    returns (t: string, ghost more: seq<string>)
    requires s == Unlines(lines)
    ensures t == Unlines(lines + PeersLines(peers)) && more == lines + PeersLines(peers)
  {
    t, more := s, lines;
    for i := 0 to |peers|
      invariant t == Unlines(more) && more == lines + PeersLines(peers[..i])
    {
      t, more := RenderPeer(t, more, peers[i]);
      PeersPush(peers, i);
      Associate(lines, PeersLines(peers[..i]), PeerLines(peers[i]));
    }
    assert peers[..|peers|] == peers;
  }

  lemma PeersPush(peers: seq<WgPeer>, i: nat)
    requires i < |peers|
    ensures PeersLines(peers[..i + 1]) == PeersLines(peers[..i]) + PeerLines(peers[i])
  {
    assert peers[..i + 1][..i] == peers[..i];
  }

  method RenderInterface(c: WgConfig) returns (s: string, ghost lines: seq<string>)
    ensures s == Unlines(["set=1"] + InterfaceLines(c)) && lines == ["set=1"] + InterfaceLines(c)
  {
    ghost var port := PortLine(c);
    s, lines := Push("", [], "set=1");
    s, lines := Push(s, lines, Line(PrivateKey, c.privateKeyHex));
    if c.listenPort.Some? {
      s, lines := Push(s, lines, Line(ListenPort, Digits(c.listenPort.value)));
    } else {
      assert lines + port == lines;
    }
    s, lines := Push(s, lines, Line(ReplacePeers, "true"));
    InterfaceAppended("set=1", Line(PrivateKey, c.privateKeyHex), port, Line(ReplacePeers, "true"));
  }

  lemma InterfaceAppended(first: string, key: string, port: seq<string>, last: string)
    ensures [] + [first] + [key] + port + [last] == [first] + ([key] + port + [last])
  {
  }

  method RenderPeer(s: string, ghost lines: seq<string>, p: WgPeer) returns (t: string, ghost more: seq<string>)
    requires s == Unlines(lines)
    ensures t == Unlines(lines + PeerLines(p)) && more == lines + PeerLines(p)
  {
    t, more := RenderPeerHead(s, lines, p);
    t, more := RenderAllowed(t, more, p.allowedIps);
    Associate(lines, PeerHead(p), AllowedLines(p.allowedIps));
  }

  method RenderAllowed(s: string, ghost lines: seq<string>, cidrs: seq<string>)
    returns (t: string, ghost more: seq<string>)
    requires s == Unlines(lines)
    ensures t == Unlines(lines + AllowedLines(cidrs)) && more == lines + AllowedLines(cidrs)
  {
    t, more := s, lines;
    for j := 0 to |cidrs|
      invariant t == Unlines(more) && more == lines + AllowedLines(cidrs[..j])
    {
      t, more := Push(t, more, Line(AllowedIp, cidrs[j]));
      AllowedPush(lines, cidrs, j);
    }
    assert cidrs[..|cidrs|] == cidrs;
  }

  method RenderPeerHead(s: string, ghost lines: seq<string>, p: WgPeer)
    returns (t: string, ghost more: seq<string>)
    requires s == Unlines(lines)
    ensures t == Unlines(lines + PeerHead(p)) && more == lines + PeerHead(p)
  {
    ghost var keepalive := KeepaliveLine(p);
    t, more := Push(s, lines, Line(PublicKey, p.publicKeyHex));
    t, more := Push(t, more, Line(Endpoint, p.endpoint));
    if p.persistentKeepalive.Some? {
      t, more := Push(t, more, Line(Keepalive, Digits(p.persistentKeepalive.value)));
    } else {
      assert more + keepalive == more;
    }
    t, more := Push(t, more, Line(ReplaceAllowedIps, "true"));
    HeadAppended(lines, Line(PublicKey, p.publicKeyHex), Line(Endpoint, p.endpoint), keepalive,
                 Line(ReplaceAllowedIps, "true"));
  }

  lemma HeadAppended(lines: seq<string>, key: string, endpoint: string, keepalive: seq<string>, last: string)
    ensures lines + [key] + [endpoint] + keepalive + [last] == lines + ([key, endpoint] + keepalive + [last])
  {
  }

  lemma AllowedPush(head: seq<string>, cidrs: seq<string>, j: nat)
    requires j < |cidrs|
    ensures head + AllowedLines(cidrs[..j]) + [Line(AllowedIp, cidrs[j])] == head + AllowedLines(cidrs[..j + 1])
  {
  }

  method Push(s: string, ghost lines: seq<string>, line: string) returns (t: string, ghost more: seq<string>)
    requires s == Unlines(lines)
    ensures t == Unlines(lines + [line]) && more == lines + [line]
  {
    UnlinesPush(lines, line);
    t := s + line;
    t := t + "\n";
    more := lines + [line];
  }

  // ---- the receiving end -----------------------------------------------------

  datatype Peer = Peer(endpoint: Option<string>, keepalive: nat, allowed: set<string>)

  datatype Device = Device(privateKey: string, listenPort: nat, peers: map<string, Peer>)

  /** The device, and the peer the lines now talk about. */
  datatype Receiver = Receiver(device: Device, current: Option<string>)

  /** An allowed IP belongs to one peer: giving it to `key` takes it from any other. */
  function AssignIp(peers: map<string, Peer>, key: string, ip: string): map<string, Peer> {
    map k | k in peers ::
      if k == key then peers[k].(allowed := peers[k].allowed + {ip})
      else peers[k].(allowed := peers[k].allowed - {ip})
  }

  function ParsePort(s: string): Option<nat> {
    match ParseU64(s)
    case Some(n) => if n <= U16_MAX then Some(n) else None
    case None => None
  }

  function ApplyKey(r: Receiver, key: Key, value: string): Option<Receiver> {
    var d := r.device;
    if key == PublicKey then
      Some(Receiver(d.(peers := if value in d.peers then d.peers else d.peers[value := Peer(None, 0, {})]),
                    Some(value)))
    else if r.current.None? then
      match key
      case PrivateKey => Some(r.(device := d.(privateKey := value)))
      case ListenPort =>
        (match ParsePort(value)
         case Some(n) => Some(r.(device := d.(listenPort := n)))
         case None => None)
      case ReplacePeers => if value == "true" then Some(r.(device := d.(peers := map[]))) else None
      case _ => None
    else if r.current.value !in d.peers then None
    else
      var p := d.peers[r.current.value];
      match key
      case Endpoint => Some(WithPeer(r, r.current.value, p.(endpoint := Some(value))))
      case Keepalive =>
        (match ParsePort(value)
         case Some(n) => Some(WithPeer(r, r.current.value, p.(keepalive := n)))
         case None => None)
      case ReplaceAllowedIps =>
        if value == "true" then Some(WithPeer(r, r.current.value, p.(allowed := {}))) else None
      case AllowedIp => Some(r.(device := d.(peers := AssignIp(d.peers, r.current.value, value))))
      case _ => None
  }

  function WithPeer(r: Receiver, key: string, p: Peer): Receiver {
    r.(device := r.device.(peers := r.device.peers[key := p]))
  }

  function ApplyLine(r: Receiver, line: string): Option<Receiver> {
    var i := FirstIndex(line, '=');
    if i == |line| then None
    else
      match KeyNamed(line[..i])
      case Some(key) => ApplyKey(r, key, line[i + 1..])
      case None => None
  }

  /** Applies lines up to the blank one that ends the operation. */
  function ApplyLines(r: Receiver, lines: seq<string>): Option<Receiver>
    decreases |lines|
  {
    if lines == [] || lines[0] == "" then Some(r)
    else
      match ApplyLine(r, lines[0])
      case Some(next) => ApplyLines(next, lines[1..])
      case None => None
  }

  /** The device after a whole operation, or None when it is refused. */
  function Interpret(d: Device, text: string): Option<Device> {
    InterpretLines(d, SplitOn(text, '\n'))
  }

  function InterpretLines(d: Device, lines: seq<string>): Option<Device>
    requires lines != []
  {
    if lines[0] != "set=1" then None
    else
      match ApplyLines(Receiver(d, None), lines[1..])
      case Some(r) => Some(r.device)
      case None => None
  }

  // ---- the text sets exactly the configuration ---------------------------------

  /** Fields are newline-free and 16-bit numbers fit, as their types say. */
  predicate WellFormedPeer(p: WgPeer) {
    && NoNewline(p.publicKeyHex) && NoNewline(p.endpoint)
    && (forall i :: 0 <= i < |p.allowedIps| ==> NoNewline(p.allowedIps[i]))
    && (p.persistentKeepalive.Some? ==> p.persistentKeepalive.value <= U16_MAX)
  }

  /** Peers have different keys, and no allowed IP is given to two of them. */
  ghost predicate Unambiguous(peers: seq<WgPeer>) {
    forall i, j :: 0 <= i < j < |peers| ==>
      && peers[i].publicKeyHex != peers[j].publicKeyHex
      && (forall ip :: ip in peers[i].allowedIps ==> ip !in peers[j].allowedIps)
  }

  ghost predicate WellFormed(c: WgConfig) {
    && NoNewline(c.privateKeyHex)
    && (c.listenPort.Some? ==> c.listenPort.value <= U16_MAX)
    && (forall i :: 0 <= i < |c.peers| ==> WellFormedPeer(c.peers[i]))
    && Unambiguous(c.peers)
  }

  function SetOf(ips: seq<string>): set<string> {
    set i | 0 <= i < |ips| :: ips[i]
  }

  function PeerOf(p: WgPeer): Peer {
    Peer(Some(p.endpoint),
         if p.persistentKeepalive.Some? then p.persistentKeepalive.value else 0,
         SetOf(p.allowedIps))
  }

  function PeersOf(peers: seq<WgPeer>): map<string, Peer>
    decreases |peers|
  {
    if peers == [] then map[]
    else
      var k := |peers| - 1;
      PeersOf(peers[..k])[peers[k].publicKeyHex := PeerOf(peers[k])]
  }

  /** The device the configuration describes. */
  function Configured(prior: Device, c: WgConfig): Device {
    Device(c.privateKeyHex, if c.listenPort.Some? then c.listenPort.value else prior.listenPort, PeersOf(c.peers))
  }

  lemma LineIsPair(r: Receiver, key: Key, value: string)
    ensures ApplyLine(r, Line(key, value)) == ApplyKey(r, key, value)
    ensures Line(key, value) != ""
  {
    var line, name := Line(key, value), Name(key);
    KeysAreTold(key);
    assert line[..|name|] == name && line[|name| + 1..] == value;
    FirstIndexAt(line, '=', |name|);
  }

  /** One line, then the others. */
  lemma LineThen(r: Receiver, key: Key, value: string, rest: seq<string>)
    ensures ApplyLines(r, [Line(key, value)] + rest) ==
            match ApplyKey(r, key, value) case Some(next) => ApplyLines(next, rest) case None => None
  {
    LineIsPair(r, key, value);
    assert ([Line(key, value)] + rest)[1..] == rest;
  }

  lemma PortParses(n: nat)
    requires n <= U16_MAX
    ensures ParsePort(Digits(n)) == Some(n)
  {
    ParsePrinted(n);
  }

  /** Lines none of which is blank can be applied in two goes. */
  lemma {:induction false} ApplyAppend(r: Receiver, a: seq<string>, b: seq<string>)
    requires forall i :: 0 <= i < |a| ==> a[i] != ""
    ensures ApplyLines(r, a + b) ==
            match ApplyLines(r, a) case Some(next) => ApplyLines(next, b) case None => None
    decreases |a|
  {
    if a == [] {
      assert a + b == b;
    } else {
      assert (a + b)[1..] == a[1..] + b;
      match ApplyLine(r, a[0])
      case Some(next) => ApplyAppend(next, a[1..], b);
      case None =>
    }
  }

  /** Allowed IPs nobody else has are added one after the other. */
  lemma AllowedFirst(ips: seq<string>)
    requires ips != []
    ensures AllowedLines(ips) == [Line(AllowedIp, ips[0])] + AllowedLines(ips[1..])
  {
  }

  lemma FirstAllowedApplies(r: Receiver, key: string, p: Peer, ips: seq<string>)
    requires ips != [] && r.current == Some(key) && key in r.device.peers && r.device.peers[key] == p
    requires forall k :: k in r.device.peers && k != key ==> ips[0] !in r.device.peers[k].allowed
    ensures ApplyLines(r, AllowedLines(ips)) ==
            ApplyLines(WithPeer(r, key, p.(allowed := p.allowed + {ips[0]})), AllowedLines(ips[1..]))
  {
    AssignFree(r.device.peers, key, ips[0]);
    LineThen(r, AllowedIp, ips[0], AllowedLines(ips[1..]));
    AllowedFirst(ips);
  }

  lemma {:induction false} AllowedApply(r: Receiver, key: string, p: Peer, ips: seq<string>)
    requires r.current == Some(key) && key in r.device.peers && r.device.peers[key] == p
    requires forall k :: k in r.device.peers && k != key ==> r.device.peers[k].allowed !! SetOf(ips)
    ensures ApplyLines(r, AllowedLines(ips)) == Some(WithPeer(r, key, p.(allowed := p.allowed + SetOf(ips))))
    decreases |ips|
  {
    var peers := r.device.peers;
    if ips == [] {
      assert SetOf(ips) == {} && p.(allowed := p.allowed + {}) == p;
      assert peers[key := p] == peers;
    } else {
      var p1 := p.(allowed := p.allowed + {ips[0]});
      SetOfFirst(ips);
      FirstAllowedApplies(r, key, p, ips);
      AllowedApply(WithPeer(r, key, p1), key, p1, ips[1..]);
      assert p1.allowed + SetOf(ips[1..]) == p.allowed + SetOf(ips);
      Overwrite(r, key, p1, p.(allowed := p.allowed + SetOf(ips)));
    }
  }

  lemma Overwrite(r: Receiver, key: string, p: Peer, q: Peer)
    ensures WithPeer(WithPeer(r, key, p), key, q) == WithPeer(r, key, q)
  {
    assert r.device.peers[key := p][key := q] == r.device.peers[key := q];
  }

  lemma SetOfFirst(ips: seq<string>)
    requires ips != []
    ensures SetOf(ips) == {ips[0]} + SetOf(ips[1..])
  {
    assert forall i :: 0 < i < |ips| ==> ips[i] == ips[1..][i - 1];
    assert forall i :: 0 <= i < |ips| - 1 ==> ips[1..][i] == ips[i + 1];
  }

  lemma AssignFree(peers: map<string, Peer>, key: string, ip: string)
    requires key in peers && forall k :: k in peers && k != key ==> ip !in peers[k].allowed
    ensures AssignIp(peers, key, ip) == peers[key := peers[key].(allowed := peers[key].allowed + {ip})]
  {
    forall k | k in peers && k != key ensures AssignIp(peers, key, ip)[k] == peers[k] {
      assert peers[k].allowed - {ip} == peers[k].allowed;
    }
  }

  lemma HeadSplit(key: string, endpoint: string, keepalive: seq<string>, last: string, rest: seq<string>)
    ensures [key, endpoint] + keepalive + [last] + rest == [key] + ([endpoint] + (keepalive + ([last] + rest)))
  {
  }

  /** The keepalive line, or its absence, leaves the peer with the configured keepalive. */
  lemma KeepaliveApplies(base: Receiver, p: WgPeer, rest: seq<string>)
    requires WellFormedPeer(p) && base.current == Some(p.publicKeyHex)
    ensures
      var key, p2 := p.publicKeyHex, PeerOf(p).(allowed := {});
      ApplyLines(WithPeer(base, key, p2.(keepalive := 0)), KeepaliveLine(p) + rest) ==
      ApplyLines(WithPeer(base, key, p2), rest)
  {
    var key, p2 := p.publicKeyHex, PeerOf(p).(allowed := {});
    if p.persistentKeepalive.Some? {
      PortParses(p.persistentKeepalive.value);
      LineThen(WithPeer(base, key, p2.(keepalive := 0)), Keepalive, Digits(p.persistentKeepalive.value), rest);
      Overwrite(base, key, p2.(keepalive := 0), p2);
    } else {
      assert KeepaliveLine(p) + rest == rest;
    }
  }

  lemma HeadApplies(d: Device, current: Option<string>, p: WgPeer, rest: seq<string>)
    requires p.publicKeyHex !in d.peers && WellFormedPeer(p)
    ensures ApplyLines(Receiver(d, current), PeerHead(p) + rest) ==
            ApplyLines(WithPeer(Receiver(d, Some(p.publicKeyHex)), p.publicKeyHex, PeerOf(p).(allowed := {})), rest)
  {
    var key, base := p.publicKeyHex, Receiver(d, Some(p.publicKeyHex));
    var last := [Line(ReplaceAllowedIps, "true")] + rest;
    var p2 := PeerOf(p).(allowed := {});
    HeadSplit(Line(PublicKey, key), Line(Endpoint, p.endpoint), KeepaliveLine(p), Line(ReplaceAllowedIps, "true"), rest);
    LineThen(Receiver(d, current), PublicKey, key, [Line(Endpoint, p.endpoint)] + (KeepaliveLine(p) + last));
    LineThen(WithPeer(base, key, Peer(None, 0, {})), Endpoint, p.endpoint, KeepaliveLine(p) + last);
    Overwrite(base, key, Peer(None, 0, {}), p2.(keepalive := 0));
    KeepaliveApplies(base, p, last);
    LineThen(WithPeer(base, key, p2), ReplaceAllowedIps, "true", rest);
    Overwrite(base, key, p2, p2);
  }

  ghost predicate FreshFor(peers: map<string, Peer>, p: WgPeer) {
    p.publicKeyHex !in peers && forall k :: k in peers ==> peers[k].allowed !! SetOf(p.allowedIps)
  }

  /** The lines of a peer nothing is known of yet set exactly that peer. */
  lemma PeerApplies(d: Device, current: Option<string>, p: WgPeer)
    requires WellFormedPeer(p) && FreshFor(d.peers, p)
    ensures ApplyLines(Receiver(d, current), PeerLines(p)) ==
            Some(WithPeer(Receiver(d, Some(p.publicKeyHex)), p.publicKeyHex, PeerOf(p)))
  {
    var key, base, bare := p.publicKeyHex, Receiver(d, Some(p.publicKeyHex)), PeerOf(p).(allowed := {});
    HeadApplies(d, current, p, AllowedLines(p.allowedIps));
    AllowedApply(WithPeer(base, key, bare), key, bare, p.allowedIps);
    assert {} + SetOf(p.allowedIps) == SetOf(p.allowedIps);
    Overwrite(base, key, bare, PeerOf(p));
  }

  lemma {:induction false} PeersKnown(peers: seq<WgPeer>, p: WgPeer)
    requires forall i :: 0 <= i < |peers| ==>
               peers[i].publicKeyHex != p.publicKeyHex && forall ip :: ip in peers[i].allowedIps ==> ip !in p.allowedIps
    ensures FreshFor(PeersOf(peers), p)
    decreases |peers|
  {
    if peers != [] {
      var last := peers[|peers| - 1];
      PeersKnown(peers[..|peers| - 1], p);
      assert forall ip :: ip in SetOf(last.allowedIps) ==> ip in last.allowedIps;
      assert forall ip :: ip in SetOf(p.allowedIps) ==> ip in p.allowedIps;
    }
  }

  lemma PeerLinesNotBlank(p: WgPeer)
    ensures forall i :: 0 <= i < |PeerLines(p)| ==> '=' in PeerLines(p)[i]
  {
  }

  lemma {:induction false} PeersLinesNotBlank(peers: seq<WgPeer>)
    ensures forall i :: 0 <= i < |PeersLines(peers)| ==> '=' in PeersLines(peers)[i]
    decreases |peers|
  {
    if peers != [] {
      PeersLinesNotBlank(peers[..|peers| - 1]);
      PeerLinesNotBlank(peers[|peers| - 1]);
    }
  }

  /** The peers' lines, applied to a device without peers, leave exactly those peers. */
  lemma {:induction false} PeersApply(d: Device, peers: seq<WgPeer>) returns (current: Option<string>)
    requires d.peers == map[] && Unambiguous(peers)
    requires forall i :: 0 <= i < |peers| ==> WellFormedPeer(peers[i])
    ensures ApplyLines(Receiver(d, None), PeersLines(peers)) ==
            Some(Receiver(d.(peers := PeersOf(peers)), current))
    decreases |peers|
  {
    if peers == [] {
      current := None;
    } else {
      var k := |peers| - 1;
      var before := peers[..k];
      assert forall i :: 0 <= i < k ==> before[i] == peers[i];
      var c := PeersApply(d, before);
      PeersLinesNotBlank(before);
      ApplyAppend(Receiver(d, None), PeersLines(before), PeerLines(peers[k]));
      PeersKnown(before, peers[k]);
      PeerApplies(d.(peers := PeersOf(before)), c, peers[k]);
      current := Some(peers[k].publicKeyHex);
    }
  }

  lemma InterfaceApplies(d: Device, c: WgConfig, rest: seq<string>)
    requires WellFormed(c)
    ensures ApplyLines(Receiver(d, None), InterfaceLines(c) + rest) ==
            ApplyLines(Receiver(Configured(d, c).(peers := map[]), None), rest)
  {
    var port := if c.listenPort.Some? then [Line(ListenPort, Digits(c.listenPort.value))] else [];
    var last := [Line(ReplacePeers, "true")] + rest;
    assert InterfaceLines(c) + rest == [Line(PrivateKey, c.privateKeyHex)] + (port + last);
    LineThen(Receiver(d, None), PrivateKey, c.privateKeyHex, port + last);
    var d1 := d.(privateKey := c.privateKeyHex);
    var d2 := Configured(d, c).(peers := d.peers);
    if c.listenPort.Some? {
      PortParses(c.listenPort.value);
      LineThen(Receiver(d1, None), ListenPort, Digits(c.listenPort.value), last);
    } else {
      assert port + last == last;
    }
    LineThen(Receiver(d2, None), ReplacePeers, "true", rest);
  }

  lemma {:induction false} DigitsOneLine(n: nat)
    ensures NoNewline(Digits(n))
  {
    assert forall i :: 0 <= i < |Digits(n)| ==> IsDigit(Digits(n)[i]);
  }

  lemma LineOneLine(k: Key, value: string)
    requires NoNewline(value)
    ensures NoNewline(Line(k, value))
  {
  }

  lemma PeerLinesOneLine(p: WgPeer)
    requires WellFormedPeer(p)
    ensures forall i :: 0 <= i < |PeerLines(p)| ==> NoNewline(PeerLines(p)[i])
  {
    LineOneLine(PublicKey, p.publicKeyHex);
    LineOneLine(Endpoint, p.endpoint);
    LineOneLine(ReplaceAllowedIps, "true");
    if p.persistentKeepalive.Some? {
      DigitsOneLine(p.persistentKeepalive.value);
      LineOneLine(Keepalive, Digits(p.persistentKeepalive.value));
    }
    forall i | 0 <= i < |p.allowedIps| ensures NoNewline(AllowedLines(p.allowedIps)[i]) {
      LineOneLine(AllowedIp, p.allowedIps[i]);
    }
  }

  lemma {:induction false} PeersLinesOneLine(peers: seq<WgPeer>)
    requires forall i :: 0 <= i < |peers| ==> WellFormedPeer(peers[i])
    ensures forall i :: 0 <= i < |PeersLines(peers)| ==> NoNewline(PeersLines(peers)[i])
    decreases |peers|
  {
    if peers != [] {
      PeersLinesOneLine(peers[..|peers| - 1]);
      PeerLinesOneLine(peers[|peers| - 1]);
    }
  }

  lemma InterfaceOneLine(c: WgConfig)
    requires WellFormed(c)
    ensures forall i :: 0 <= i < |InterfaceLines(c)| ==> NoNewline(InterfaceLines(c)[i])
  {
    LineOneLine(PrivateKey, c.privateKeyHex);
    LineOneLine(ReplacePeers, "true");
    if c.listenPort.Some? {
      DigitsOneLine(c.listenPort.value);
      LineOneLine(ListenPort, Digits(c.listenPort.value));
    }
  }

  lemma BlankEnds(r: Receiver, rest: seq<string>)
    requires rest != [] && rest[0] == ""
    ensures ApplyLines(r, rest) == Some(r)
  {
  }

  lemma ConfigApplies(c: WgConfig, prior: Device, blank: seq<string>) returns (current: Option<string>)
    requires WellFormed(c) && blank != [] && blank[0] == ""
    ensures ApplyLines(Receiver(prior, None), InterfaceLines(c) + (PeersLines(c.peers) + blank)) ==
            Some(Receiver(Configured(prior, c), current))
  {
    InterfaceApplies(prior, c, PeersLines(c.peers) + blank);
    var bare := Configured(prior, c).(peers := map[]);
    current := PeersApply(bare, c.peers);
    PeersLinesNotBlank(c.peers);
    ApplyAppend(Receiver(bare, None), PeersLines(c.peers), blank);
    BlankEnds(Receiver(Configured(prior, c), current), blank);
  }

  lemma TextSplits(lines: seq<string>)
    requires forall i :: 0 <= i < |lines| ==> NoNewline(lines[i])
    ensures SplitOn(Unlines(lines) + "\n", '\n') == lines + ["", ""]
  {
    SplitNothing('\n');
    SplitUnlines(lines, "\n");
  }

  lemma SetFirst(d: Device, rest: seq<string>)
    ensures InterpretLines(d, ["set=1"] + rest) ==
            match ApplyLines(Receiver(d, None), rest) case Some(r) => Some(r.device) case None => None
  {
    assert (["set=1"] + rest)[1..] == rest;
  }

  lemma LinesInterpreted(c: WgConfig, prior: Device, blank: seq<string>)
    requires WellFormed(c) && blank != [] && blank[0] == ""
    ensures InterpretLines(prior, ConfigLines(c) + blank) == Some(Configured(prior, c))
  {
    var current := ConfigApplies(c, prior, blank);
    Associate(["set=1"], InterfaceLines(c) + PeersLines(c.peers), blank);
    Associate(InterfaceLines(c), PeersLines(c.peers), blank);
    SetFirst(prior, InterfaceLines(c) + (PeersLines(c.peers) + blank));
  }

  /**
   * The set is authoritative: whatever the device was before, the rendered text
   * leaves exactly the configured key and peers, no stale peer, and the old
   * listen port when the configuration names none.
   */
  lemma RenderedConfigIsAuthoritative(c: WgConfig, prior: Device)
    requires WellFormed(c)
    ensures Interpret(prior, Unlines(ConfigLines(c)) + "\n") == Some(Configured(prior, c))
  {
    InterfaceOneLine(c);
    PeersLinesOneLine(c.peers);
    TextSplits(ConfigLines(c));
    LinesInterpreted(c, prior, ["", ""]);
  }
}
