/**
 * Usage scenarios of the Note aggregate, each proved from the method
 * contracts alone: a client that can see only those contracts still learns
 * each outcome. Every scenario starts from a note "Shopping" owned by "u1".
 */
module NoteScenarios {
  import opened Wrappers
  import opened Collaborators
  import opened Labels
  import opened Notes

  /** After sharing the note with "u2" as ReadWrite, "u2" may edit it. */
  method SharedEditorCanEdit() returns (canEdit: bool)
    ensures canEdit
  {
    var note := new Note("Shopping", "milk, eggs", "u1");
    var shared := note.AddCollaborator("u2", ReadWrite);
    AddLookup([], note.id, "u2", ReadWrite, "u2");
    canEdit := note.UserCanEdit("u2");
  }

  /** Adding the owner as a collaborator fails with the argument error and leaves no collaborator. */
  method OwnerCannotCollaborate() returns (outcome: Outcome<NoteError>, collaborators: seq<NoteCollaborator>)
    ensures outcome == Fail(ArgumentError("collaboratorId", "Cannot add the owner as a collaborator."))
    ensures collaborators == []
  {
    var note := new Note("Shopping", "milk, eggs", "u1");
    outcome := note.AddCollaborator("u1", Read);
    collaborators := note.collaborators;
  }

  /** Removing a user the note is not shared with keeps the existing collaborator. */
  method RemovingAbsentUserKeepsList() returns (collaborators: seq<NoteCollaborator>)
    ensures |collaborators| == 1 && collaborators[0].collaboratorId == "u2"
  {
    var note := new Note("Shopping", "milk, eggs", "u1");
    var shared := note.AddCollaborator("u2", ReadWrite);
    AddNew([], note.id, "u2", ReadWrite);
    var u2 := NoteCollaborator("u2", note.id, ReadWrite);
    assert note.collaborators == [u2];
    note.RemoveCollaborator("ghost");
    assert !IsCollaborator([u2], "ghost");
    Collaborators.RemoveAbsent([u2], "ghost");
    collaborators := note.collaborators;
  }

  /** The label "Work" added twice is on the note once. */
  method LabelAddedTwiceIsPresentOnce() returns (labels: seq<Label>)
    ensures labels == [Label("Work")]
  {
    var note := new Note("Shopping", "milk, eggs", "u1");
    note.AddLabel("Work");
    assert note.labels == [Label("Work")];
    note.AddLabel("Work");
    Labels.AddIdempotent([], "Work");
    labels := note.labels;
  }

  /** Archiving twice raises one event, and afterwards not even the owner may edit. */
  method ArchiveTwice() returns (eventCount: nat, ownerCanEdit: bool)
    ensures eventCount == 1
    ensures !ownerCanEdit
  {
    var note := new Note("Shopping", "milk, eggs", "u1");
    note.Archive();
    note.Archive();
    eventCount := |note.domainEvents|;
    ownerCanEdit := note.UserCanEdit(note.ownerId);
  }
}
