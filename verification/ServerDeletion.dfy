/** The local tables of servers, volumes, interfaces, security groups and floating IPs, and the first
    background task of a server deletion, `_remove_server_resources`, which touches all of them. */
module ServerDeletion {
  import opened Options
  import opened Volumes
  import opened Polling
  import opened Networking
  import opened Sequences

  datatype NicRow = NicRow(projectId: nat, server: Option<nat>, deleted: bool)

  datatype GroupRow = GroupRow(projectId: nat, deleted: bool)

  /** `links` holds the link rows as (interface, group). */
  datatype Tables = Tables(
    servers: map<nat, ServerRow>, volumes: map<nat, VolumeRow>, nics: map<nat, NicRow>,
    groups: map<nat, GroupRow>, links: set<(nat, nat)>, floatingIps: map<nat, FloatingIpRow>)
  {
    predicate LiveServer(id: nat) { id in servers && !servers[id].deleted }

    predicate LiveVolume(id: nat) { id in volumes && !volumes[id].deleted }

    predicate LiveNic(id: nat) { id in nics && !nics[id].deleted }

    predicate LiveGroup(id: nat) { id in groups && !groups[id].deleted }

    predicate Linked(volume: nat, server: nat) { volume in volumes && volumes[volume].serverId == Some(server) }

    /** The floating IP is on the interface. */
    predicate On(floatingIp: nat, nic: nat) { floatingIp in floatingIps && floatingIps[floatingIp].interface == Some(nic) }

    /** The guard of `delete_security_group`. */
    predicate GroupUnused(group: nat) { forall link :: link in links ==> link.1 != group }
  }

  /** The schema allows more; one floating IP per interface is what Neutron guarantees. */
  ghost predicate OnePerNic(t: Tables) {
    forall a, b, n :: t.On(a, n) && t.On(b, n) ==> a == b
  }

  // ---- What the removal leaves --------------------------------------------------------------------

  /** The removal iterates over the server's loaded volume list itself, as written, or over a copy of it. */
  datatype Iteration = OverList | OverCopy

  /** The query may return the rows in any order. */
  predicate Lists(list: seq<nat>, rows: set<nat>) {
    Distinct(list) && Elements(list) == rows
  }

  /** What the first `rounds` rounds over a list visit if each takes its element out of it: every second one. */
  function EverySecond(list: seq<nat>, rounds: nat): set<nat> {
    set k | 0 <= k < rounds && 2 * k < |list| :: list[2 * k]
  }

  function Released(iteration: Iteration, list: seq<nat>): set<nat> {
    if iteration.OverCopy? then Elements(list) else EverySecond(list, |list|)
  }

  /** The volumes the loop never comes to. */
  function Skipped(iteration: Iteration, list: seq<nat>): set<nat> {
    Elements(list) - Released(iteration, list)
  }

  /** Over the list itself, exactly those at odd positions; so none exactly if there is at most one volume. */
  lemma SkippedIff(list: seq<nat>)
    requires Distinct(list)
    ensures Skipped(OverCopy, list) == {}
    ensures forall k :: 0 <= k < |list| ==> (list[k] in Skipped(OverList, list) <==> k % 2 == 1)
    ensures Skipped(OverList, list) == {} <==> |list| <= 1
    ensures |Elements(list)| == |list|
  {
    forall k | 0 <= k < |list| ensures list[k] in EverySecond(list, |list|) <==> k % 2 == 0 {
      if k % 2 == 0 { assert list[2 * (k / 2)] == list[k]; }
    }
    assert |list| > 1 ==> list[1] in Elements(list);
    ElementCount(list);
  }

  function VolumesReleased(volumes: map<nat, VolumeRow>, released: set<nat>): map<nat, VolumeRow> {
    map v | v in volumes :: if v in released then volumes[v].DetachedFromServer() else volumes[v]
  }

  function VolumesOf(t: Tables, server: nat): set<nat> {
    set v | v in t.volumes && t.Linked(v, server)
  }

  /** Every row that concerns one of these interfaces, after they are gone. */
  function NicsDeleted(t: Tables, gone: set<nat>): Tables {
    t.(nics := map n | n in t.nics :: if n in gone then t.nics[n].(deleted := true) else t.nics[n],
       links := (set link | link in t.links && link.0 !in gone),
       floatingIps := map f | f in t.floatingIps ::
           if t.floatingIps[f].interface.Some? && t.floatingIps[f].interface.value in gone
           then t.floatingIps[f].Detached() else t.floatingIps[f])
  }

  function Removed(t: Tables, released: set<nat>, nics: set<nat>): Tables {
    NicsDeleted(t.(volumes := VolumesReleased(t.volumes, released)), set n | n in nics && t.LiveNic(n))
  }

  // ---- The task -----------------------------------------------------------------------------------

  /** The loaded relationship `Server._linked_volumes`.  It and `Volume._server` are back-references of
      each other: a volume that drops its server is taken out of the list at once. */
  class LinkedVolumes {
    var list: seq<nat>

    constructor (loaded: seq<nat>)
      ensures list == loaded
    {
      list := loaded;
    }

    method DetachFromServer(volume: Volume, id: nat)
      requires Distinct(list)
      modifies this, volume
      ensures volume.AsRow() == old(volume.AsRow()).DetachedFromServer()
      ensures Distinct(list)
      ensures forall k :: 0 <= k < |old(list)| && old(list)[k] == id ==> list == old(list)[..k] + old(list)[k + 1..]
      ensures id !in old(list) ==> list == old(list)
    {
      volume.DetachFromServer();
      var k := 0;
      while k < |list| && list[k] != id
        invariant k <= |list| && id !in list[..k]
      {
        k := k + 1;
      }
      if k < |list| {
        list := list[..k] + list[k + 1..];
      }
    }
  }

  /** What `i` rounds leave of the list: the elements passed over, then those still to come. */
  ghost predicate AfterRounds(loaded: seq<nat>, i: nat, list: seq<nat>) {
    && 2 * i <= |loaded| + 1 && |list| == |loaded| - i
    && forall k :: 0 <= k < |list| ==> list[k] == if k < i then loaded[2 * k + 1] else loaded[k + i]
  }

  lemma NextRound(loaded: seq<nat>, i: nat, list: seq<nat>)
    requires AfterRounds(loaded, i, list) && i < |list|
    ensures 2 * i < |loaded| && list[i] == loaded[2 * i] && list[i] in Elements(loaded)
    ensures AfterRounds(loaded, i + 1, list[..i] + list[i + 1..])
  {}

  /** `for volume in volumes` counts positions; here the list shrinks under it. */
  method ReleaseVolumes(t: Tables, loaded: seq<nat>) returns (t': Tables)
    requires Distinct(loaded) && Elements(loaded) <= t.volumes.Keys
    ensures t' == t.(volumes := VolumesReleased(t.volumes, Released(OverList, loaded)))
  {
    var volumes := new LinkedVolumes(loaded);
    var rows, i := t.volumes, 0;
    NoneReleased(t.volumes, loaded);
    while i < |volumes.list|
      invariant AfterRounds(loaded, i, volumes.list) && Distinct(volumes.list)
      invariant rows == VolumesReleased(t.volumes, EverySecond(loaded, i))
    {
      var v := volumes.list[i];
      NextRound(loaded, i, volumes.list);
      var volume := new Volume(rows[v]);
      volumes.DetachFromServer(volume, v);
      NextReleased(t.volumes, loaded, i);
      rows, i := rows[v := volume.AsRow()], i + 1;
    }
    AllRounds(loaded, i);
    t' := t.(volumes := rows);
  }

  lemma NoneReleased(volumes: map<nat, VolumeRow>, list: seq<nat>)
    ensures VolumesReleased(volumes, EverySecond(list, 0)) == volumes
  {}

  lemma NextReleased(volumes: map<nat, VolumeRow>, list: seq<nat>, i: nat)
    requires Distinct(list) && 2 * i < |list| && list[2 * i] in volumes
    ensures list[2 * i] !in EverySecond(list, i)
    ensures VolumesReleased(volumes, EverySecond(list, i + 1))
            == VolumesReleased(volumes, EverySecond(list, i))[list[2 * i] := volumes[list[2 * i]].DetachedFromServer()]
  {
    assert EverySecond(list, i + 1) == EverySecond(list, i) + {list[2 * i]};
  }

  lemma AllRounds(list: seq<nat>, rounds: nat)
    requires rounds <= |list| <= 2 * rounds
    ensures EverySecond(list, rounds) == EverySecond(list, |list|)
  {}

  /** The loop that was meant: over a copy, every volume is visited. */
  method ReleaseCopiedVolumes(t: Tables, loaded: seq<nat>) returns (t': Tables)
    requires Distinct(loaded) && Elements(loaded) <= t.volumes.Keys
    ensures t' == t.(volumes := VolumesReleased(t.volumes, Released(OverCopy, loaded)))
  {
    var volumes := new LinkedVolumes(loaded);
    var rows, i := t.volumes, 0;
    assert rows == VolumesReleased(t.volumes, Elements(loaded[..0]));
    while i < |loaded|
      invariant i <= |loaded| && Distinct(volumes.list)
      invariant rows == VolumesReleased(t.volumes, Elements(loaded[..i]))
    {
      var v := loaded[i];
      assert v in Elements(loaded) && v !in Elements(loaded[..i]);
      var volume := new Volume(rows[v]);
      volumes.DetachFromServer(volume, v);
      assert Elements(loaded[..i + 1]) == Elements(loaded[..i]) + {v};
      rows, i := rows[v := volume.AsRow()], i + 1;
    }
    assert loaded[..i] == loaded;
    t' := t.(volumes := rows);
  }

  /** One round of the loop over the interfaces. */
  method DeleteNic(t: Tables, n: nat) returns (t': Tables)
    requires t.LiveNic(n) && OnePerNic(t)
    ensures t' == NicsDeleted(t, {n})
  {
    var row := t.nics[n];
    var nic := new NetworkInterface(row.server);
    nic.Delete();
    t' := t.(nics := t.nics[n := row.(deleted := nic.deleted)], links := (set link | link in t.links && link.0 != n));
    if f :| f in t.floatingIps && t.On(f, n) {
      var floatingIp := new FloatingIp(t.floatingIps[f]);
      floatingIp.DetachFromNetworkInterface();
      t' := t'.(floatingIps := t.floatingIps[f := floatingIp.AsRow()]);
      assert forall g :: g in t.floatingIps && t.On(g, n) ==> g == f;
    }
    assert t'.floatingIps == NicsDeleted(t, {n}).floatingIps;
    assert t'.nics == NicsDeleted(t, {n}).nics;
  }

  lemma NicsDeletedInTurn(t: Tables, gone: set<nat>, n: nat)
    requires OnePerNic(t)
    ensures OnePerNic(NicsDeleted(t, gone))
    ensures NicsDeleted(NicsDeleted(t, gone), {n}) == NicsDeleted(t, gone + {n})
  {
    var t1 := NicsDeleted(t, gone);
    forall a, b, m | t1.On(a, m) && t1.On(b, m)
      ensures a == b
    {
      assert t.On(a, m) && t.On(b, m);
    }
    assert NicsDeleted(t1, {n}).nics == NicsDeleted(t, gone + {n}).nics;
    assert NicsDeleted(t1, {n}).floatingIps == NicsDeleted(t, gone + {n}).floatingIps;
    assert NicsDeleted(t1, {n}).links == NicsDeleted(t, gone + {n}).links;
  }

  method DeleteNics(t: Tables, found: set<nat>) returns (t': Tables)
    requires OnePerNic(t) && forall n :: n in found ==> t.LiveNic(n)
    ensures t' == NicsDeleted(t, found)
  {
    var todo := found;
    t' := t;
    NoneDeleted(t, found - todo);
    while todo != {}
      invariant todo <= found
      invariant t' == NicsDeleted(t, found - todo)
      decreases |todo|
    {
      var n :| n in todo;
      NicsDeletedInTurn(t, found - todo, n);
      StaysLive(t, found - todo, n);
      t' := DeleteNic(t', n);
      assert found - todo + {n} == found - (todo - {n});
      todo := todo - {n};
    }
    assert found - todo == found;
  }

  lemma NoneDeleted(t: Tables, none: set<nat>)
    requires none == {}
    ensures NicsDeleted(t, none) == t
  {
    assert NicsDeleted(t, none).links == t.links;
    assert NicsDeleted(t, none).floatingIps == t.floatingIps;
    assert NicsDeleted(t, none).nics == t.nics;
  }

  lemma StaysLive(t: Tables, gone: set<nat>, n: nat)
    requires t.LiveNic(n) && n !in gone
    ensures NicsDeleted(t, gone).LiveNic(n)
  {}

  lemma ReleasedKeepsOnePerNic(t: Tables, volumes: map<nat, VolumeRow>)
    requires OnePerNic(t)
    ensures OnePerNic(t.(volumes := volumes))
  {
    var t' := t.(volumes := volumes);
    forall a, b, n | t'.On(a, n) && t'.On(b, n)
      ensures a == b
    {
      assert t.On(a, n) && t.On(b, n);
    }
  }

  /** `_remove_server_resources`.  `loaded` is the server's volume list, `nics` the list the deletion
      request answered with, of which the query returns the live ones; `deletes` says which port
      deletions answer.  All or nothing: the tables are committed only if every port is gone. */
  method RemoveServerResources(t: Tables, server: nat, iteration: Iteration, loaded: seq<nat>, nics: set<nat>,
                               deletes: nat -> bool, commits: bool)
    returns (ok: bool, t': Tables)
    requires OnePerNic(t) && Lists(loaded, VolumesOf(t, server))
    ensures ok <==> t.LiveServer(server) && (forall n :: n in nics && t.LiveNic(n) ==> deletes(n)) && commits
    ensures t' == if ok then Removed(t, Released(iteration, loaded), nics) else t
  {
    if !t.LiveServer(server) {
      return false, t;
    }
    var staged;
    if iteration.OverCopy? {
      staged := ReleaseCopiedVolumes(t, loaded);
    } else {
      staged := ReleaseVolumes(t, loaded);
    }
    var found := set n | n in nics && t.LiveNic(n);
    ReleasedKeepsOnePerNic(t, staged.volumes);
    assert forall n :: n in found ==> staged.LiveNic(n);
    staged := DeleteNics(staged, found);
    ok := commits && forall n :: n in found ==> deletes(n);
    t' := if ok then staged else t;
  }

  /** What the removal means for everybody else: nothing of the server's is left attached but the skipped
      volumes, which do not change; nothing that was not the server's has changed; and a group that
      only its interfaces used can go. */
  lemma RemovalClearsIff(t: Tables, server: nat, iteration: Iteration, loaded: seq<nat>, nics: set<nat>)
    requires Lists(loaded, VolumesOf(t, server))
    requires forall n :: n in nics ==> n in t.nics
    requires forall f, n :: t.On(f, n) ==> t.LiveNic(n)
    requires forall link :: link in t.links ==> t.LiveNic(link.0)
    ensures var t', skipped := Removed(t, Released(iteration, loaded), nics), Skipped(iteration, loaded);
            && VolumesOf(t', server) == skipped
            && (skipped == {} <==> iteration == OverCopy || |VolumesOf(t, server)| <= 1)
            && (forall v :: t.Linked(v, server) && v !in skipped ==> t'.volumes[v] == t.volumes[v].(status := AVAILABLE, serverId := None))
            && (forall v :: v in t.volumes && (!t.Linked(v, server) || v in skipped) ==> v in t'.volumes && t'.volumes[v] == t.volumes[v])
            && (forall n :: n in nics ==> n in t'.nics && t'.nics[n].deleted)
            && (forall n :: n in t.nics && n !in nics ==> n in t'.nics && t'.nics[n] == t.nics[n])
            && (forall f, n :: n in nics ==> !t'.On(f, n))
            && (forall f, n :: t.On(f, n) && n in nics ==> t'.floatingIps[f].interface == None && t'.floatingIps[f].status == DOWN)
            && (forall f, n :: t.On(f, n) && n !in nics ==> t'.floatingIps[f] == t.floatingIps[f])
            && (forall link :: link in t'.links <==> link in t.links && link.0 !in nics)
            && (forall g :: t'.GroupUnused(g) <==> forall link :: link in t.links && link.1 == g ==> link.0 in nics)
  {
    SkippedIff(loaded);
    VolumesAfterRemoval(t, server, iteration, loaded, nics);
    NicsAfterRemoval(t, Released(iteration, loaded), nics);
  }

  lemma ReleasedAmong(iteration: Iteration, list: seq<nat>)
    ensures Released(iteration, list) <= Elements(list)
  {}

  lemma VolumesAfterRemoval(t: Tables, server: nat, iteration: Iteration, loaded: seq<nat>, nics: set<nat>)
    requires Lists(loaded, VolumesOf(t, server))
    ensures var t', skipped := Removed(t, Released(iteration, loaded), nics), Skipped(iteration, loaded);
            && VolumesOf(t', server) == skipped && skipped <= VolumesOf(t, server)
            && (forall v :: t.Linked(v, server) && v !in skipped ==> t'.volumes[v] == t.volumes[v].(status := AVAILABLE, serverId := None))
            && (forall v :: v in t.volumes && (!t.Linked(v, server) || v in skipped) ==> v in t'.volumes && t'.volumes[v] == t.volumes[v])
  {
    ReleasedAmong(iteration, loaded);
  }

  lemma NicsAfterRemoval(t: Tables, released: set<nat>, nics: set<nat>)
    requires forall n :: n in nics ==> n in t.nics
    requires forall f, n :: t.On(f, n) ==> t.LiveNic(n)
    requires forall link :: link in t.links ==> t.LiveNic(link.0)
    ensures var t' := Removed(t, released, nics);
            && (forall n :: n in nics ==> n in t'.nics && t'.nics[n].deleted)
            && (forall n :: n in t.nics && n !in nics ==> n in t'.nics && t'.nics[n] == t.nics[n])
            && (forall f, n :: n in nics ==> !t'.On(f, n))
            && (forall f, n :: t.On(f, n) && n in nics ==> t'.floatingIps[f].interface == None && t'.floatingIps[f].status == DOWN)
            && (forall f, n :: t.On(f, n) && n !in nics ==> t'.floatingIps[f] == t.floatingIps[f])
            && (forall link :: link in t'.links <==> link in t.links && link.0 !in nics)
            && (forall g :: t'.GroupUnused(g) <==> forall link :: link in t.links && link.1 == g ==> link.0 in nics)
  {
    var t' := Removed(t, released, nics);
    forall f, n | t.On(f, n) && n in nics
      ensures t'.floatingIps[f] == t.floatingIps[f].Detached()
    {
      assert t.LiveNic(n);
    }
    assert forall f :: f in t'.floatingIps ==> f in t.floatingIps;
    forall f, n | n in nics
      ensures !t'.On(f, n)
    {
      if t'.On(f, n) {
        assert t.floatingIps[f].interface.Some? && t.On(f, t.floatingIps[f].interface.value);
      }
    }
    assert forall link :: link in t'.links <==> link in t.links && link.0 !in nics;
  }
}
