/**
 `AuthServerSessions`: the configured peers as a sequence of named groups of
 client records, with `get(name)` and `findSrv(ip, agent)`. A record is
 addressed by its location (group index, client index); the shape of the
 registry never changes after construction.
 */
module Sessions {
  import opened Js
  import opened Session

  datatype Group = Group(name: string, clients: seq<Client>)

  type Registry = seq<Group>

  datatype Loc = Loc(group: nat, index: nat)

  /** One configured fingerprint with its base64-decoded public key. */
  datatype PeerConfig = PeerConfig(ip: string, agent: string, publicKey: Bytes)

  /** A configuration entry is one fingerprint or an array of them. */
  datatype Peers = OnePeer(peer: PeerConfig) | PeerArray(peers: seq<PeerConfig>)

  predicate Valid(reg: Registry, l: Loc)
  {
    l.group < |reg| && l.index < |reg[l.group].clients|
  }

  function At(reg: Registry, l: Loc): (c: Client)
    requires Valid(reg, l)
  {
    reg[l.group].clients[l.index]
  }

  /** Same groups, names and number of clients per group. */
  predicate SameShape(a: Registry, b: Registry)
  {
    |a| == |b| && forall g :: 0 <= g < |a| ==> a[g].name == b[g].name && |a[g].clients| == |b[g].clients|
  }

  /** `l` comes before `m` in the scan order: group order, then client order. */
  predicate Precedes(l: Loc, m: Loc)
  {
    l.group < m.group || (l.group == m.group && l.index < m.index)
  }

  predicate Matches(c: Client, ip: string, agent: string)
  {
    c.ip == ip && c.agent == agent
  }

  /** Replaces the record at `l`, leaving every other record as it was. */
  function Put(reg: Registry, l: Loc, c: Client): (r: Registry)
    requires Valid(reg, l)
    ensures SameShape(reg, r) && Valid(r, l) && At(r, l) == c
    ensures forall m :: Valid(reg, m) && m != l ==> At(r, m) == At(reg, m)
  {
    reg[l.group := reg[l.group].(clients := reg[l.group].clients[l.index := c])]
  }

  lemma SameShapeValid(a: Registry, b: Registry, l: Loc)
    requires SameShape(a, b)
    ensures Valid(a, l) <==> Valid(b, l)
  {
  }

  /** Writing back the record already at `l` changes nothing. */
  lemma PutAt(reg: Registry, l: Loc)
    requires Valid(reg, l)
    ensures Put(reg, l, At(reg, l)) == reg
  {
    assert reg[l.group].clients[l.index := At(reg, l)] == reg[l.group].clients;
  }

  /** A later write at the same location hides an earlier one. */
  lemma PutPut(reg: Registry, l: Loc, a: Client, b: Client)
    requires Valid(reg, l)
    ensures Put(Put(reg, l, a), l, b) == Put(reg, l, b)
  {
    assert reg[l.group].clients[l.index := a][l.index := b] == reg[l.group].clients[l.index := b];
  }

  /** Constructor: one group per configuration entry, in order, each record fresh. */
  function Build(config: seq<(string, Peers)>): (r: Registry)
    ensures |r| == |config|
    ensures forall g :: 0 <= g < |r| ==> r[g].name == config[g].0 && |r[g].clients| == |PeerList(config[g].1)|
    ensures forall l :: Valid(r, l) ==>
      var p := PeerList(config[l.group].1)[l.index];
      At(r, l) == Fresh(config[l.group].0, p.ip, p.agent, p.publicKey)
  {
    seq(|config|, g requires 0 <= g < |config| => BuildGroup(config[g].0, PeerList(config[g].1)))
  }

  function PeerList(p: Peers): (peers: seq<PeerConfig>)
  {
    match p
    case OnePeer(c) => [c]
    case PeerArray(cs) => cs
  }

  function BuildGroup(name: string, peers: seq<PeerConfig>): (g: Group)
    ensures g.name == name && |g.clients| == |peers|
    ensures forall i :: 0 <= i < |peers| ==>
      g.clients[i] == Fresh(name, peers[i].ip, peers[i].agent, peers[i].publicKey)
  {
    Group(name, seq(|peers|, i requires 0 <= i < |peers| => Fresh(name, peers[i].ip, peers[i].agent, peers[i].publicKey)))
  }

  /** No record in `cs` satisfies `p`. */
  ghost predicate NoneIn(cs: seq<Client>, p: Client -> bool)
  {
    forall i :: 0 <= i < |cs| ==> !p(cs[i])
  }

  /** `Array.prototype.find` on a group's clients, as an index. */
  function FirstIn(cs: seq<Client>, p: Client -> bool): (r: Option<nat>)
    ensures r.Some? ==> r.value < |cs| && p(cs[r.value]) && forall i :: 0 <= i < r.value ==> !p(cs[i])
    ensures r.None? ==> NoneIn(cs, p)
    decreases |cs|
  {
    if |cs| == 0 then None
    else if p(cs[0]) then Some(0)
    else match FirstIn(cs[1..], p)
      case None => None
      case Some(i) => Some(i + 1)
  }

  /** Every entry of `order` names a group of `reg`. */
  predicate Listed(reg: Registry, order: seq<nat>)
  {
    forall k :: 0 <= k < |order| ==> order[k] < |reg|
  }

  /** Scans the groups listed in `order`, in that order, and inside each group
      its clients in order; returns the first (position, client index) whose
      record satisfies `p`. */
  function Scan(reg: Registry, order: seq<nat>, p: Client -> bool): (r: Option<(nat, nat)>)
    requires Listed(reg, order)
    ensures r.Some? ==>
      r.value.0 < |order| && r.value.1 < |reg[order[r.value.0]].clients|
      && p(reg[order[r.value.0]].clients[r.value.1])
      && (forall k :: 0 <= k < r.value.0 ==> NoneIn(reg[order[k]].clients, p))
      && (forall i :: 0 <= i < r.value.1 ==> !p(reg[order[r.value.0]].clients[i]))
    ensures r.None? ==> forall k :: 0 <= k < |order| ==> NoneIn(reg[order[k]].clients, p)
    decreases |order|
  {
    if |order| == 0 then None
    else match FirstIn(reg[order[0]].clients, p)
      case Some(i) => Some((0, i))
      case None =>
        match Scan(reg, order[1..], p)
        case None => None
        case Some(found) => Some((found.0 + 1, found.1))
  }

  /** The group indices of `reg` in order. */
  function AllGroups(reg: Registry): (r: seq<nat>)
    ensures |r| == |reg| && forall k :: 0 <= k < |r| ==> r[k] == k
  {
    seq(|reg|, k requires 0 <= k < |reg| => k as nat)
  }

  /** `get(str)`: the first group named `str`, or `false` (None) when `str`
      is empty, not a string, or names no group. */
  function Get(reg: Registry, v: Option<string>): (r: Option<nat>)
    ensures r.Some? <==> Truthy(v) && exists g :: 0 <= g < |reg| && reg[g].name == v.value
    ensures r.Some? ==>
      r.value < |reg| && reg[r.value].name == v.value
      && forall g :: 0 <= g < r.value ==> reg[g].name != v.value
  {
    if !Truthy(v) then None else FirstNamed(reg, v.value, 0)
  }

  function FirstNamed(reg: Registry, name: string, from: nat): (r: Option<nat>)
    requires from <= |reg|
    ensures r.Some? ==>
      from <= r.value < |reg| && reg[r.value].name == name
      && forall g :: from <= g < r.value ==> reg[g].name != name
    ensures r.None? ==> forall g :: from <= g < |reg| ==> reg[g].name != name
    decreases |reg| - from
  {
    if from == |reg| then None
    else if reg[from].name == name then Some(from)
    else FirstNamed(reg, name, from + 1)
  }

  /** `findSrv(ip, agent)`: the first record, in group order then client
      order, whose ip and agent both equal the arguments; `false` (None)
      when either argument is empty or not a string, or nothing matches. */
  function FindSrv(reg: Registry, ip: Option<string>, agent: Option<string>): (r: Option<Loc>)
    ensures r.Some? <==>
      Truthy(ip) && Truthy(agent)
      && exists l :: Valid(reg, l) && Matches(At(reg, l), ip.value, agent.value)
    ensures r.Some? ==>
      Valid(reg, r.value) && Matches(At(reg, r.value), ip.value, agent.value)
      && forall l :: Valid(reg, l) && Precedes(l, r.value) ==> !Matches(At(reg, l), ip.value, agent.value)
  {
    if !Truthy(ip) || !Truthy(agent) then None
    else
      var p := (c: Client) => Matches(c, ip.value, agent.value);
      var order := AllGroups(reg);
      match Scan(reg, order, p)
      case None =>
        assert forall l :: Valid(reg, l) ==> !Matches(At(reg, l), ip.value, agent.value) by {
          forall l | Valid(reg, l)
            ensures !Matches(At(reg, l), ip.value, agent.value)
          {
            assert order[l.group] == l.group;
            assert NoneIn(reg[order[l.group]].clients, p);
            assert !p(reg[l.group].clients[l.index]);
          }
        }
        None
      case Some(found) =>
        var l := Loc(found.0, found.1);
        assert order[found.0] == found.0;
        assert Valid(reg, l) && Matches(At(reg, l), ip.value, agent.value);
        assert forall m :: Valid(reg, m) && Precedes(m, l) ==> !Matches(At(reg, m), ip.value, agent.value) by {
          forall m | Valid(reg, m) && Precedes(m, l)
            ensures !Matches(At(reg, m), ip.value, agent.value)
          {
            assert order[m.group] == m.group;
            if m.group < l.group {
              assert NoneIn(reg[order[m.group]].clients, p);
            }
            assert !p(reg[m.group].clients[m.index]);
          }
        }
        Some(l)
  }
}
