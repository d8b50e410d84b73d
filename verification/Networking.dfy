/** Network interfaces and floating IPs: `common/domain/network_interface/entity.py` and
    `common/domain/floating_ip/entity.py`. */
module Networking {
  import opened Options

  /** The source's ACTIVE, DOWN and ERROR; servers and volumes have statuses of the same names. */
  datatype FloatingIpStatus = UP | DOWN | FAULTY

  datatype FloatingIpError = AlreadyAttached | AttachedDeletion | AlreadyDeleted

  datatype FloatingIpRow = FloatingIpRow(projectId: nat, interface: Option<nat>, status: FloatingIpStatus, deleted: bool)
  {
    function DeletionError(): Option<FloatingIpError> {
      if interface.Some? then Some(FloatingIpError.AttachedDeletion) else if deleted then Some(FloatingIpError.AlreadyDeleted) else None
    }

    function AttachedTo(nic: nat): FloatingIpRow { this.(interface := Some(nic), status := UP) }

    function Detached(): FloatingIpRow { this.(interface := None, status := DOWN) }
  }

  lemma FloatingIpGuards(row: FloatingIpRow)
    ensures row.interface != None ==> row.DeletionError() == Some(FloatingIpError.AttachedDeletion)
    ensures row.interface == None && row.deleted ==> row.DeletionError() == Some(FloatingIpError.AlreadyDeleted)
    ensures row.interface == None && !row.deleted ==> row.DeletionError() == None
  {}

  class FloatingIp {
    const projectId: nat
    var interface: Option<nat>
    var status: FloatingIpStatus
    var deleted: bool

    constructor (row: FloatingIpRow)
      ensures AsRow() == row
    {
      projectId, interface, status, deleted := row.projectId, row.interface, row.status, row.deleted;
    }

    function AsRow(): FloatingIpRow
      reads this
    {
      FloatingIpRow(projectId, interface, status, deleted)
    }

    method AttachToNetworkInterface(nic: nat) returns (error: Option<FloatingIpError>)
      modifies this
      ensures error == if old(interface).Some? then Some(FloatingIpError.AlreadyAttached) else None
      ensures AsRow() == if error.None? then old(AsRow()).AttachedTo(nic) else old(AsRow())
    {
      if interface.Some? {
        return Some(FloatingIpError.AlreadyAttached);
      }
      interface, status := Some(nic), UP;
      error := None;
    }

    method DetachFromNetworkInterface()
      modifies this
      ensures AsRow() == old(AsRow()).Detached()
    {
      interface, status := None, DOWN;
    }
  }

  class NetworkInterface {
    const server: Option<nat>
    var groups: seq<nat>   // the groups of its link rows
    var deleted: bool

    constructor (server: Option<nat>)
      ensures this.server == server && groups == [] && !deleted
    {
      this.server, groups, deleted := server, [], false;
    }

    method AddSecurityGroups(more: seq<nat>)
      modifies this
      ensures groups == old(groups) + more && deleted == old(deleted)
    {
      for i := 0 to |more|
        invariant groups == old(groups) + more[..i] && deleted == old(deleted)
      {
        groups := groups + [more[i]];
      }
    }

    method Delete()
      modifies this
      ensures groups == [] && deleted
    {
      groups := [];
      deleted := true;
    }
  }
}
