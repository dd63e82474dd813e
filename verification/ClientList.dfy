/** src/client_list.c: the list of connected clients and its slot table. */
module ClientSpec {
  import opened Options
  import opened Iptables

  datatype ConnectionState = Preauthenticated | Authenticated

  /** What is known of one client. */
  datatype Client = Client(ip: Ip, mac: Mac, token: Option<string>, state: ConnectionState, added: int, updated: int,
                           incoming: nat, outgoing: nat, idx: nat)

  // ---------- Searching ----------

  /** The position of the first client with this address pair, or the length of the list. */
  function Find(cs: seq<Client>, ip: Ip, mac: Mac): (i: nat)
    ensures i <= |cs|
    ensures i < |cs| ==> cs[i].ip == ip && cs[i].mac == mac
    ensures forall j :: 0 <= j < i ==> !(cs[j].ip == ip && cs[j].mac == mac)
  {
    if cs == [] then 0 else if cs[0].ip == ip && cs[0].mac == mac then 0 else Find(cs[1..], ip, mac) + 1
  }

  function FindByIp(cs: seq<Client>, ip: Ip): (i: nat)
    ensures i <= |cs|
    ensures i < |cs| ==> cs[i].ip == ip
    ensures forall j :: 0 <= j < i ==> cs[j].ip != ip
  {
    if cs == [] then 0 else if cs[0].ip == ip then 0 else FindByIp(cs[1..], ip) + 1
  }

  function FindByMac(cs: seq<Client>, mac: Mac): (i: nat)
    ensures i <= |cs|
    ensures i < |cs| ==> cs[i].mac == mac
    ensures forall j :: 0 <= j < i ==> cs[j].mac != mac
  {
    if cs == [] then 0 else if cs[0].mac == mac then 0 else FindByMac(cs[1..], mac) + 1
  }

  /** The positions found are the only ones of their kind. */
  lemma FoundAt(cs: seq<Client>, i: nat, ip: Ip, mac: Mac)
    requires i <= |cs|
    ensures
      && (i < |cs| ==> cs[i].ip == ip && cs[i].mac == mac)
      && (forall j :: 0 <= j < i ==> cs[j].ip != ip || cs[j].mac != mac)
      ==> Find(cs, ip, mac) == i
    ensures (i < |cs| ==> cs[i].ip == ip) && (forall j :: 0 <= j < i ==> cs[j].ip != ip) ==> FindByIp(cs, ip) == i
    ensures (i < |cs| ==> cs[i].mac == mac) && (forall j :: 0 <= j < i ==> cs[j].mac != mac) ==> FindByMac(cs, mac) == i
  {
  }

  // ---------- Slots ----------

  predicate SlotUsed(cs: seq<Client>, k: nat) {
    exists c :: c in cs && c.idx == k
  }

  /** The lowest slot from `k` on that no client holds, or `max` when all are held. */
  function FreeSlotFrom(cs: seq<Client>, k: nat, max: nat): (i: nat)
    requires k <= max
    ensures k <= i <= max
    ensures i < max ==> !SlotUsed(cs, i)
    ensures forall j :: k <= j < i ==> SlotUsed(cs, j)
    decreases max - k
  {
    if k == max || !SlotUsed(cs, k) then k else FreeSlotFrom(cs, k + 1, max)
  }

  function FreeSlot(cs: seq<Client>, max: nat): nat {
    FreeSlotFrom(cs, 0, max)
  }

  function Slots(cs: seq<Client>): set<nat> {
    set c | c in cs :: c.idx
  }

  lemma {:induction false} SlotsAtMostClients(cs: seq<Client>)
    ensures |Slots(cs)| <= |cs|
  {
    if cs != [] {
      var rest := cs[1..];
      SlotsAtMostClients(rest);
      assert cs == [cs[0]] + rest;
      assert Slots(cs) == {cs[0].idx} + Slots(rest);
    }
  }

  function Below(n: nat): (s: set<nat>)
    ensures |s| == n && forall i :: i in s <==> 0 <= i < n
  {
    if n == 0 then {} else Below(n - 1) + {n - 1}
  }

  lemma SubsetSize(a: set<nat>, b: set<nat>)
    requires a <= b
    ensures |a| <= |b|
  {
    if a != {} {
      var x :| x in a;
      SubsetSize(a - {x}, b - {x});
    }
  }

  /** Pigeonhole: with fewer clients than slots there is a free slot, so the search of an append
      below the limit always ends inside the table. */
  lemma SlotAvailable(cs: seq<Client>, max: nat)
    requires |cs| < max
    ensures FreeSlot(cs, max) < max
  {
    if FreeSlot(cs, max) == max {
      forall k | k in Below(max)
        ensures k in Slots(cs)
      {
        assert SlotUsed(cs, k);
      }
      SubsetSize(Below(max), Slots(cs));
      SlotsAtMostClients(cs);
    }
  }

  // ---------- Changing the list ----------

  /** _client_list_append */
  function Append(cs: seq<Client>, max: nat, ip: Ip, mac: Mac, token: Option<string>, now: int): seq<Client> {
    if |cs| >= max then cs
    else cs + [Client(ip, mac, token, Preauthenticated, now, now, 0, 0, FreeSlot(cs, max))]
  }

  /** client_list_add_client: an address pair that is listed is not added again. */
  function Add(cs: seq<Client>, max: nat, ip: Ip, arp: Option<Mac>, token: string, now: int): seq<Client> {
    if arp.None? || Find(cs, ip, arp.value) < |cs| then cs
    else Append(cs, max, ip, arp.value, Some(token), now)
  }

  function RemoveAt(cs: seq<Client>, i: nat): seq<Client>
    requires i < |cs|
  {
    cs[..i] + cs[i + 1..]
  }

  /** What the list keeps: no two clients share an address pair or a slot, and all slots are in range. */
  predicate Sound(cs: seq<Client>, max: nat) {
    && |cs| <= max
    && (forall i :: 0 <= i < |cs| ==> cs[i].idx < max)
    && (forall i, j :: 0 <= i < j < |cs| ==> cs[i].idx != cs[j].idx)
    && (forall i, j :: 0 <= i < j < |cs| ==> !(cs[i].ip == cs[j].ip && cs[i].mac == cs[j].mac))
  }

  lemma AddKeepsSound(cs: seq<Client>, max: nat, ip: Ip, arp: Option<Mac>, token: string, now: int)
    requires Sound(cs, max)
    ensures Sound(Add(cs, max, ip, arp, token, now), max)
  {
    if arp.Some? && Find(cs, ip, arp.value) == |cs| && |cs| < max {
      SlotAvailable(cs, max);
      var k := FreeSlot(cs, max);
      assert !SlotUsed(cs, k);
      forall i | 0 <= i < |cs|
        ensures cs[i].idx != k
      {
        assert cs[i] in cs;
      }
    }
  }

  lemma RemoveKeepsSound(cs: seq<Client>, max: nat, i: nat)
    requires Sound(cs, max) && i < |cs|
    ensures Sound(RemoveAt(cs, i), max)
  {
  }
}

module ClientList {
  import opened Options
  import opened Iptables
  import Spec = ClientSpec

  /** One node of the list. */
  class Client {
    var next: Client?
    const ip: Ip
    const mac: Mac
    const token: Option<string>
    var state: Spec.ConnectionState
    const added: int
    var updated: int
    var incoming: nat
    var outgoing: nat
    var idx: nat

    constructor (ip: Ip, mac: Mac, token: Option<string>, now: int)
      ensures next == null && this.ip == ip && this.mac == mac && this.token == token
      ensures state == Spec.Preauthenticated && added == now && updated == now && incoming == 0 && outgoing == 0
    {
      next := null;
      this.ip, this.mac, this.token := ip, mac, token;
      state := Spec.Preauthenticated;
      added, updated, incoming, outgoing := now, now, 0, 0;
      idx := 0;
    }

    function Record(): Spec.Client
      reads this`state, this`updated, this`incoming, this`outgoing, this`idx
    {
      Spec.Client(ip, mac, token, state, added, updated, incoming, outgoing, idx)
    }
  }

  class ClientList {
    var first: Client?
    var count: int
    const arr: array<Client?>
    /** The nodes in list order. */
    ghost var Nodes: seq<Client>

    ghost predicate Valid()
      reads this, arr, Nodes
    {
      && count == |Nodes|
      && Linked()
      && (forall i :: 0 <= i < |Nodes| ==> Nodes[i].idx < arr.Length && arr[Nodes[i].idx] == Nodes[i])
      && (forall k :: 0 <= k < arr.Length && arr[k] != null ==> arr[k] in Nodes && arr[k].idx == k)
    }

    /** The nodes are distinct and linked in order. */
    ghost predicate Linked()
      reads this`first, this`Nodes, Nodes`next
    {
      && (forall i, j :: 0 <= i < j < |Nodes| ==> Nodes[i] != Nodes[j])
      && first == (if Nodes == [] then null else Nodes[0])
      && (forall i {:trigger Nodes[i].next} :: 0 <= i < |Nodes| ==> Nodes[i].next == At(Nodes, i + 1))
    }

    /** The node at a position, null past the end. */
    static ghost function At(nodes: seq<Client>, i: int): Client? {
      if 0 <= i < |nodes| then nodes[i] else null
    }

    /** The list as a value. */
    ghost function Contents(): seq<Spec.Client>
      reads this, Nodes
    {
      Records(Nodes)
    }

    static ghost function Records(nodes: seq<Client>): (r: seq<Spec.Client>)
      reads nodes
      ensures |r| == |nodes|
    {
      seq(|nodes|, i requires 0 <= i < |nodes| reads nodes => nodes[i].Record())
    }

    /** client_list_init */
    constructor (maxclients: nat)
      ensures Valid() && fresh(arr) && arr.Length == maxclients && Nodes == []
    {
      first, count, Nodes := null, 0, [];
      arr := new Client?[maxclients](_ => null);
    }

    /** The walk to the last node. */
    method Last() returns (prev: Client?)
      requires Valid()
      ensures prev == if Nodes == [] then null else Nodes[|Nodes| - 1]
    {
      prev := null;
      var c := first;
      ghost var i := 0;
      while c != null
        invariant 0 <= i <= |Nodes|
        invariant c == if i < |Nodes| then Nodes[i] else null
        invariant prev == if i == 0 then null else Nodes[i - 1]
        decreases |Nodes| - i
      {
        prev := c;
        c := c.next;
        i := i + 1;
      }
    }

    /** The search for the first empty slot. */
    method EmptySlot() returns (k: nat)
      requires Valid()
      ensures k == Spec.FreeSlot(Contents(), arr.Length)
      ensures k <= arr.Length && (k < arr.Length ==> arr[k] == null)
    {
      k := 0;
      while k < arr.Length && arr[k] != null
        invariant 0 <= k <= arr.Length
        invariant Spec.FreeSlot(Contents(), arr.Length) == Spec.FreeSlotFrom(Contents(), k, arr.Length)
      {
        SlotIsUsed(k);
        k := k + 1;
      }
      if k < arr.Length {
        SlotIsFree(k);
      }
    }

    lemma SlotIsUsed(k: nat)
      requires Valid() && k < arr.Length && arr[k] != null
      ensures Spec.SlotUsed(Contents(), k)
    {
      var i :| 0 <= i < |Nodes| && Nodes[i] == arr[k];
      assert Contents()[i] in Contents() && Contents()[i].idx == k;
    }

    lemma SlotIsFree(k: nat)
      requires Valid() && k < arr.Length && arr[k] == null
      ensures !Spec.SlotUsed(Contents(), k)
    {
      forall c | c in Contents()
        ensures c.idx != k
      {
        var i :| 0 <= i < |Contents()| && Contents()[i] == c;
        assert c == Nodes[i].Record();
      }
    }

    /** _client_list_append: null when the list is full. */
    method Append(ip: Ip, mac: Mac, token: Option<string>, now: int) returns (c: Client?)
      requires Valid()
      modifies this, arr, Nodes
      ensures Valid()
      ensures Contents() == Spec.Append(old(Contents()), arr.Length, ip, mac, token, now)
      ensures old(|Nodes|) >= arr.Length ==> c == null && Nodes == old(Nodes)
      ensures old(|Nodes|) < arr.Length ==>
        c != null && fresh(c) && Nodes == old(Nodes) + [c] && c.ip == ip && c.mac == mac
    {
      if count >= arr.Length {
        return null;
      }
      var prev := Last();
      var i := EmptySlot();
      Spec.SlotAvailable(Contents(), arr.Length);
      c := new Client(ip, mac, token, now);
      Attach(prev, c, i);
    }

    /** The pointer changes of an append. */
    method Link(prev: Client?, c: Client)
      requires Linked() && c !in Nodes && c.next == null
      requires prev == if Nodes == [] then null else Nodes[|Nodes| - 1]
      modifies this`first, this`Nodes, Nodes`next
      ensures Linked() && Nodes == old(Nodes) + [c]
    {
      if prev == null {
        first := c;
      } else {
        prev.next := c;
      }
      Nodes := Nodes + [c];
    }

    /** A new client takes its slot and its place behind the last one. */
    method Attach(prev: Client?, c: Client, i: nat)
      requires Valid() && c !in Nodes && c.next == null
      requires i < arr.Length && arr[i] == null
      requires prev == if Nodes == [] then null else Nodes[|Nodes| - 1]
      modifies this, arr, Nodes, c
      ensures Valid() && Nodes == old(Nodes) + [c]
      ensures Contents() == old(Contents()) + [old(c.Record()).(idx := i)]
    {
      hide Linked;
      ghost var before, nodes := Contents(), Nodes;
      arr[i] := c;
      c.idx := i;
      Link(prev, c);
      count := count + 1;
      assert Contents() == before + [c.Record()];
      assert forall k :: 0 <= k < |nodes| ==> Nodes[k] == nodes[k];
      forall k | 0 <= k < arr.Length && arr[k] != null
        ensures arr[k] in Nodes && arr[k].idx == k
      {
        if k != i {
          assert arr[k] in nodes;
        }
      }
    }

    /** client_list_find */
    method Find(ip: Ip, mac: Mac) returns (c: Client?)
      requires Valid()
      ensures var i := Spec.Find(Contents(), ip, mac);
              c == if i < |Nodes| then Nodes[i] else null
      ensures c != null ==> c in Nodes && c.ip == ip && c.mac == mac
    {
      c := first;
      ghost var i := 0;
      while c != null
        invariant 0 <= i <= |Nodes|
        invariant c == if i < |Nodes| then Nodes[i] else null
        invariant forall j :: 0 <= j < i ==> !(Contents()[j].ip == ip && Contents()[j].mac == mac)
        decreases |Nodes| - i
      {
        if c.ip == ip && c.mac == mac {
          Spec.FoundAt(Contents(), i, ip, mac);
          return;
        }
        c := c.next;
        i := i + 1;
      }
    }

    /** client_list_find_by_ip */
    method FindByIp(ip: Ip) returns (c: Client?)
      requires Valid()
      ensures var i := Spec.FindByIp(Contents(), ip);
              c == if i < |Nodes| then Nodes[i] else null
      ensures c != null ==> c in Nodes
    {
      c := first;
      ghost var i := 0;
      while c != null
        invariant 0 <= i <= |Nodes|
        invariant c == if i < |Nodes| then Nodes[i] else null
        invariant forall j :: 0 <= j < i ==> Contents()[j].ip != ip
        decreases |Nodes| - i
      {
        if c.ip == ip {
          Spec.FoundAt(Contents(), i, ip, c.mac);
          return;
        }
        c := c.next;
        i := i + 1;
      }
    }

    /** client_list_find_by_mac */
    method FindByMac(mac: Mac) returns (c: Client?)
      requires Valid()
      ensures var i := Spec.FindByMac(Contents(), mac);
              c == if i < |Nodes| then Nodes[i] else null
      ensures c != null ==> c in Nodes
    {
      c := first;
      ghost var i := 0;
      while c != null
        invariant 0 <= i <= |Nodes|
        invariant c == if i < |Nodes| then Nodes[i] else null
        invariant forall j :: 0 <= j < i ==> Contents()[j].mac != mac
        decreases |Nodes| - i
      {
        if c.mac == mac {
          Spec.FoundAt(Contents(), i, c.ip, mac);
          return;
        }
        c := c.next;
        i := i + 1;
      }
    }

    /** client_list_add_client; `arp` is what the ARP table knows of the address, None also for a
        malformed one, and `token` the fresh random token. */
    method AddClient(ip: Ip, arp: Option<Mac>, token: string, now: int) returns (c: Client?)
      requires Valid()
      modifies this, arr, Nodes
      ensures Valid()
      ensures Contents() == Spec.Add(old(Contents()), arr.Length, ip, arp, token, now)
      ensures c != null ==> c in Nodes && c.ip == ip && arp == Some(c.mac)
      ensures c == null ==> Nodes == old(Nodes)
      ensures forall n :: n in Nodes ==> n in old(Nodes) || fresh(n)
    {
      if arp.None? {
        return null;
      }
      c := Find(ip, arp.value);
      if c == null {
        c := Append(ip, arp.value, Some(token), now);
      }
    }

    /** _client_list_free_node, but for the memory itself. */
    method FreeNode(c: Client)
      requires c.idx < arr.Length
      modifies arr
      ensures arr[c.idx] == if old(arr[c.idx]) == c then null else old(arr[c.idx])
      ensures forall k :: 0 <= k < arr.Length && k != c.idx ==> arr[k] == old(arr[k])
    {
      if arr[c.idx] == c {
        arr[c.idx] := null;
      }
    }

    /** The pointer changes of a deletion. */
    method Unlink(prev: Client?, c: Client, ghost i: nat)
      requires Linked() && i < |Nodes| && Nodes[i] == c
      requires prev == if i == 0 then null else Nodes[i - 1]
      modifies this`first, this`Nodes, Nodes`next
      ensures Linked() && c.next == old(c.next)
      ensures Nodes == old(Nodes)[..i] + old(Nodes)[i + 1..]
      ensures Contents() == Spec.RemoveAt(old(Contents()), i)
    {
      ghost var nodes, before := Nodes, Contents();
      assert forall k {:trigger nodes[k].next} :: 0 <= k < |nodes| ==> nodes[k].next == At(nodes, k + 1);
      if prev == null {
        first := c.next;
      } else {
        prev.next := c.next;
      }
      Nodes := Nodes[..i] + Nodes[i + 1..];
      assert Contents() == Spec.RemoveAt(before, i);
      forall k | 0 <= k < |Nodes|
        ensures Nodes[k].next == At(Nodes, k + 1)
      {
        var j := if k < i then k else k + 1;
        assert Nodes[k] == nodes[j];
        assert nodes[j] != prev ==> nodes[j].next == At(nodes, j + 1);
      }
    }

    /** Unlinks the node at position `i`, whose predecessor is `prev`, and frees its slot. */
    method Detach(prev: Client?, c: Client, ghost i: nat)
      requires Valid() && i < |Nodes| && Nodes[i] == c
      requires prev == if i == 0 then null else Nodes[i - 1]
      modifies this, arr, Nodes
      ensures Valid()
      ensures Nodes == old(Nodes)[..i] + old(Nodes)[i + 1..]
      ensures Contents() == Spec.RemoveAt(old(Contents()), i)
      ensures c.next == old(c.next) && c.Record() == old(c.Record())
    {
      assert forall j :: 0 <= j < |Nodes| && j != i ==> Nodes[j] != c;
      hide Linked, Contents;
      ghost var nodes := Nodes;
      Unlink(prev, c, i);
      FreeSlot(c, nodes, i);
      count := count - 1;
    }

    /** The slot of a node that has just been unlinked. */
    method FreeSlot(c: Client, ghost nodes: seq<Client>, ghost i: nat)
      requires i < |nodes| && nodes[i] == c && Nodes == nodes[..i] + nodes[i + 1..]
      requires forall j :: 0 <= j < |nodes| ==> nodes[j].idx < arr.Length && arr[nodes[j].idx] == nodes[j]
      requires forall j :: 0 <= j < |nodes| && j != i ==> nodes[j] != c
      requires forall k :: 0 <= k < arr.Length && arr[k] != null ==> arr[k] in nodes && arr[k].idx == k
      modifies arr
      ensures |Nodes| == |nodes| - 1
      ensures forall j :: 0 <= j < |Nodes| ==> Nodes[j].idx < arr.Length && arr[Nodes[j].idx] == Nodes[j]
      ensures forall k :: 0 <= k < arr.Length && arr[k] != null ==> arr[k] in Nodes && arr[k].idx == k
    {
      FreeNode(c);
      SlotsStay(nodes, i);
      SlotsAfterRemoval(nodes, i);
    }

    /** After a removal the remaining nodes still stand in their slots. */
    lemma SlotsStay(nodes: seq<Client>, i: nat)
      requires i < |nodes| && Nodes == nodes[..i] + nodes[i + 1..]
      requires forall j :: 0 <= j < |nodes| && j != i ==> nodes[j].idx < arr.Length && arr[nodes[j].idx] == nodes[j]
      ensures |Nodes| == |nodes| - 1
      ensures forall j :: 0 <= j < |Nodes| ==> Nodes[j].idx < arr.Length && arr[Nodes[j].idx] == Nodes[j]
    {
      forall j | 0 <= j < |Nodes|
        ensures Nodes[j].idx < arr.Length && arr[Nodes[j].idx] == Nodes[j]
      {
        assert Nodes[j] == nodes[if j < i then j else j + 1];
      }
    }

    /** After a removal the slots name exactly the remaining nodes. */
    lemma SlotsAfterRemoval(nodes: seq<Client>, i: nat)
      requires i < |nodes| && Nodes == nodes[..i] + nodes[i + 1..]
      requires forall k :: 0 <= k < arr.Length && arr[k] != null ==>
        arr[k] in nodes && arr[k] != nodes[i] && arr[k].idx == k
      ensures forall k :: 0 <= k < arr.Length && arr[k] != null ==> arr[k] in Nodes && arr[k].idx == k
    {
      forall k | 0 <= k < arr.Length && arr[k] != null
        ensures arr[k] in Nodes && arr[k].idx == k
      {
        var j :| 0 <= j < |nodes| && nodes[j] == arr[k];
        assert arr[k] == Nodes[if j < i then j else j - 1];
      }
    }

    /** client_list_delete: a client that is not on the list changes nothing. */
    method Delete(c: Client)
      requires Valid()
      modifies this, arr, Nodes
      ensures Valid()
      ensures c !in old(Nodes) ==> Nodes == old(Nodes) && Contents() == old(Contents())
      ensures forall i :: 0 <= i < |old(Nodes)| && old(Nodes)[i] == c ==>
                Nodes == old(Nodes)[..i] + old(Nodes)[i + 1..]
                && Contents() == Spec.RemoveAt(old(Contents()), i)
      ensures c.next == old(c.next) && c.Record() == old(c.Record())
    {
      var p := first;
      if p == null {
        return;
      }
      if p == c {
        Detach(null, c, 0);
        return;
      }
      ghost var i := 0;
      while p.next != null && p.next != c
        invariant 0 <= i < |Nodes| && p == Nodes[i]
        invariant forall j :: 0 <= j <= i ==> Nodes[j] != c
        decreases |Nodes| - i
      {
        assert Nodes[i].next == At(Nodes, i + 1);
        p := p.next;
        i := i + 1;
      }
      assert Nodes[i].next == At(Nodes, i + 1);
      if p.next != null {
        Detach(p, c, i + 1);
      }
    }
  }
}
