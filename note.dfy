/**
 * The Note aggregate: one note, its owner, its collaborators and their
 * permissions, its labels and its archived flag.
 *
 * The note changes only through its own methods. Each method below changes
 * exactly the fields its `modifies` clause names, says what their new values
 * are (through the list functions of the Collaborators and Labels modules),
 * and keeps the aggregate's invariant `Valid()`: the owner is never a
 * collaborator, collaborator ids are unique and label names are unique.
 */
module Notes {
  import opened Wrappers
  import opened Collaborators
  import opened Labels

  /** The background a note is displayed with. */
  datatype NoteBackground = Default | Red | Blue | Green | IslandImage

  /** Metadata of a picture attached to a note (the picture operations are stubs, so only the list exists). */
  datatype NotePicture = NotePicture(url: string)

  /** A domain event queued by the note for consumers outside the aggregate. */
  datatype NoteEvent = NoteArchivedEvent(note: Note)

  /** The rule violation the aggregate reports (an `ArgumentException`). */
  datatype NoteError = ArgumentError(paramName: string, message: string)

  class Note {
    /** Assigned by persistence; the aggregate only reads it. */
    var id: int
    var title: string
    var content: string
    var background: NoteBackground
    var pictures: seq<NotePicture>
    /** Fixed at construction. */
    const ownerId: string
    var collaborators: seq<NoteCollaborator>
    var labels: seq<Label>
    var isArchived: bool
    /** Domain events raised and not yet dispatched, oldest first. */
    var domainEvents: seq<NoteEvent>

    /** The aggregate's invariant. */
    ghost predicate Valid()
      reads this
      ensures Valid() ==> !IsCollaborator(collaborators, ownerId)
      ensures Valid() ==> forall i :: 0 <= i < |labels| ==> !HasLabel(labels[i + 1..], labels[i].name)
    {
      ExcludesOwner(collaborators, ownerId) && DistinctIds(collaborators) && DistinctNames(labels)
    }

    constructor (title: string, content: string, ownerId: string, background: NoteBackground := NoteBackground.Default)
      ensures this.title == title && this.content == content
      ensures this.ownerId == ownerId && this.background == background
      ensures pictures == [] && collaborators == [] && labels == []
      ensures !isArchived && domainEvents == []
      ensures Valid()
    {
      this.title := title;
      this.content := content;
      this.background := background;
      this.ownerId := ownerId;
      this.isArchived := false;
      this.pictures := [];
      this.collaborators := [];
      this.labels := [];
      this.domainEvents := [];
    }

    /**
     * Shares the note with a user, or changes the permission of a user it is
     * already shared with. The owner cannot be added: that fails and nothing changes.
     */
    method AddCollaborator(collaboratorId: string, permissions: CollaboratorPermissions := Read)
      returns (outcome: Outcome<NoteError>)
      modifies this`collaborators
      ensures outcome.Fail? <==> collaboratorId == ownerId
      ensures outcome.Fail? ==>
        outcome.error == ArgumentError("collaboratorId", "Cannot add the owner as a collaborator.")
      ensures collaborators == if outcome.Fail? then old(collaborators)
                               else CollaboratorsAfterAdd(old(collaborators), id, collaboratorId, permissions)
      ensures old(Valid()) ==> Valid()
    {
      if collaboratorId == ownerId {
        return Fail(ArgumentError("collaboratorId", "Cannot add the owner as a collaborator."));
      }
      ghost var wasValid := Valid();
      ghost var before := collaborators;
      var existing := FirstIndexOf(collaborators, collaboratorId);
      if existing.Some? {
        var i := existing.value;
        collaborators := collaborators[i := collaborators[i].(permissions := permissions)];
      } else {
        collaborators := collaborators + [NoteCollaborator(collaboratorId, id, permissions)];
      }
      if wasValid {
        AddKeepsInvariant(before, ownerId, id, collaboratorId, permissions);
      }
      outcome := Pass;
    }

    /** Stops sharing the note with a user; a user it is not shared with is ignored. */
    method RemoveCollaborator(collaboratorId: string)
      modifies this`collaborators
      ensures collaborators == CollaboratorsAfterRemove(old(collaborators), collaboratorId)
      ensures old(Valid()) ==> Valid()
    {
      ghost var wasValid := Valid();
      ghost var before := collaborators;
      var existing := FirstIndexOf(collaborators, collaboratorId);
      if existing.Some? {
        var i := existing.value;
        collaborators := collaborators[..i] + collaborators[i + 1..];
      }
      if wasValid {
        RemoveKeepsInvariant(before, ownerId, collaboratorId);
      }
    }

    /**
     * Whether a user may edit the note: nobody while it is archived; otherwise
     * the owner, and a collaborator whose (first) entry grants ReadWrite.
     */
    function UserCanEdit(userId: string): (r: bool)
      reads this
      ensures isArchived ==> !r
      ensures !isArchived && userId == ownerId ==> r
      ensures !isArchived && userId != ownerId ==>
        (r <==> exists i :: 0 <= i < |collaborators| && collaborators[i].collaboratorId == userId
                            && collaborators[i].permissions == ReadWrite
                            && forall j :: 0 <= j < i ==> collaborators[j].collaboratorId != userId)
    {
      if isArchived then false
      else if userId == ownerId then true
      else PermissionOf(collaborators, userId) == Some(ReadWrite)
    }

    /** Under the invariant, a non-owner may edit exactly when some entry grants them ReadWrite. */
    lemma CanEditUnderInvariant(userId: string)
      requires Valid()
      ensures UserCanEdit(userId) <==>
        !isArchived && (userId == ownerId ||
          exists c :: c in collaborators && c.collaboratorId == userId && c.permissions == ReadWrite)
    {
      if !isArchived && userId != ownerId {
        if c :| c in collaborators && c.collaboratorId == userId && c.permissions == ReadWrite {
          var k :| 0 <= k < |collaborators| && collaborators[k] == c;
          FirstIndexOfDistinct(collaborators, k);
        }
      }
    }

    /** Replaces the title and the content; nothing else changes. */
    method Modify(title: string, content: string)
      modifies this`title, this`content
      ensures this.title == title && this.content == content
    {
      this.title := title;
      this.content := content;
    }

    /** Adds a label unless one with the same name is already there. */
    method AddLabel(labelText: string)
      modifies this`labels
      ensures labels == LabelsAfterAdd(old(labels), labelText)
      ensures old(Valid()) ==> Valid()
    {
      ghost var before := labels;
      if HasLabel(labels, labelText) {
        return;
      }
      labels := labels + [Label(labelText)];
      if ExcludesOwner(collaborators, ownerId) && DistinctIds(collaborators) && DistinctNames(before) {
        AddKeepsDistinct(before, labelText);
      }
    }

    /** Removes every label with the given name. */
    method RemoveLabel(labelText: string)
      modifies this`labels
      ensures labels == LabelsAfterRemove(old(labels), labelText)
      ensures old(Valid()) ==> Valid()
    {
      ghost var before := labels;
      labels := LabelsAfterRemove(labels, labelText);
      if DistinctNames(before) {
        RemoveKeepsDistinct(before, labelText);
      }
    }

    /** Archives the note, raising one NoteArchivedEvent; archiving an archived note does nothing. */
    method Archive()
      modifies this`isArchived, this`domainEvents
      ensures isArchived
      ensures domainEvents == if old(isArchived) then old(domainEvents)
                              else old(domainEvents) + [NoteArchivedEvent(this)]
    {
      if isArchived {
        return;
      }
      isArchived := true;
      domainEvents := domainEvents + [NoteArchivedEvent(this)];
    }
  }
}
