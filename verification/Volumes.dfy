/** The volume entity of `common/domain/volume/entity.py`: its row, and the object whose methods
    guard and assign the row's columns. */
module Volumes {
  import opened Options

  datatype VolumeStatus =
    | CREATING | AVAILABLE | RESERVED | ATTACHING | DETACHING | IN_USE | MAINTENANCE | DELETING
    | AWAITING_TRANSFER | ERROR | ERROR_DELETING | BACKING_UP | RESTORING_BACKUP | ERROR_BACKING_UP
    | ERROR_RESTORING | ERROR_EXTENDING | DOWNLOADING | UPLOADING | RETYPING | EXTENDING

  datatype VolumeError =
    | AccessDenied | UpdateDenied | AttachedDeletion | StatusInvalidForDeletion | AlreadyDeleted
    | StatusInvalidForResizing | ResizeNotAllowed | AlreadyAttached | ServerNotMatched
    | NotAttached | CannotDetachRoot

  const DELETABLE_STATUSES := [AVAILABLE, ERROR, ERROR_RESTORING, ERROR_EXTENDING]

  datatype VolumeRow = VolumeRow(
    projectId: nat, serverId: Option<nat>, status: VolumeStatus, size: nat, isRoot: bool, deleted: bool)
  {
    function DeletionError(): Option<VolumeError> {
      if serverId.Some? then Some(AttachedDeletion)
      else if status !in DELETABLE_STATUSES then Some(StatusInvalidForDeletion)
      else if deleted then Some(AlreadyDeleted)
      else None
    }

    function ResizeError(newSize: nat): Option<VolumeError> {
      if status != AVAILABLE then Some(StatusInvalidForResizing)
      else if newSize <= size then Some(ResizeNotAllowed)
      else None
    }

    function AttachmentError(): Option<VolumeError> {
      if status == IN_USE || serverId.Some? then Some(AlreadyAttached) else None
    }

    function DetachmentError(): Option<VolumeError> {
      if status != IN_USE || serverId.None? then Some(NotAttached)
      else if isRoot then Some(CannotDetachRoot)
      else None
    }

    function AttachedTo(server: nat): VolumeRow { this.(status := IN_USE, serverId := Some(server)) }

    function DetachedFromServer(): VolumeRow { this.(status := AVAILABLE, serverId := None) }
  }

  class Volume {
    const projectId: nat
    const isRoot: bool
    var serverId: Option<nat>
    var status: VolumeStatus
    var size: nat
    var deleted: bool

    constructor (row: VolumeRow)
      ensures AsRow() == row
    {
      projectId, isRoot := row.projectId, row.isRoot;
      serverId, status, size, deleted := row.serverId, row.status, row.size, row.deleted;
    }

    function AsRow(): VolumeRow
      reads this
    {
      VolumeRow(projectId, serverId, status, size, isRoot, deleted)
    }

    method UpdateStatus(newStatus: VolumeStatus)
      modifies this
      ensures AsRow() == old(AsRow()).(status := newStatus)
    {
      status := newStatus;
    }

    method CompleteCreation(attached: bool)
      modifies this
      ensures AsRow() == old(AsRow()).(status := if attached then IN_USE else AVAILABLE)
    {
      status := if attached then IN_USE else AVAILABLE;
    }

    method FailCreation()
      modifies this
      ensures AsRow() == old(AsRow()).(status := ERROR)
    {
      status := ERROR;
    }

    method PrepareForAttachment() returns (error: Option<VolumeError>)
      modifies this
      ensures error == old(AsRow()).AttachmentError()
      ensures AsRow() == if error.None? then old(AsRow()).(status := ATTACHING) else old(AsRow())
    {
      error := AsRow().AttachmentError();
      if error.None? {
        status := ATTACHING;
      }
    }

    method FailAttachment()
      modifies this
      ensures AsRow() == old(AsRow()).(status := ERROR)
    {
      status := ERROR;
    }

    method AttachToServer(server: nat) returns (error: Option<VolumeError>)
      modifies this
      ensures error == old(AsRow()).AttachmentError()
      ensures AsRow() == if error.None? then old(AsRow()).AttachedTo(server) else old(AsRow())
    {
      error := AsRow().AttachmentError();
      if error.None? {
        status, serverId := IN_USE, Some(server);
      }
    }

    method PrepareForDetachment() returns (error: Option<VolumeError>)
      modifies this
      ensures error == old(AsRow()).DetachmentError()
      ensures AsRow() == if error.None? then old(AsRow()).(status := DETACHING) else old(AsRow())
    {
      error := AsRow().DetachmentError();
      if error.None? {
        status := DETACHING;
      }
    }

    method DetachFromServer()
      modifies this
      ensures AsRow() == old(AsRow()).DetachedFromServer()
    {
      serverId, status := None, AVAILABLE;
    }

    method Resize(newSize: nat) returns (error: Option<VolumeError>)
      modifies this
      ensures error == old(AsRow()).ResizeError(newSize)
      ensures AsRow() == if error.None? then old(AsRow()).(size := newSize) else old(AsRow())
    {
      error := AsRow().ResizeError(newSize);
      if error.None? {
        size := newSize;
      }
    }

    method Delete()
      modifies this
      ensures AsRow() == old(AsRow()).(deleted := true)
    {
      deleted := true;
    }
  }
}
