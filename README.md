# neatbook Note aggregate in Dafny

This project models the one piece of neatbook, a note-taking web application, that has real behaviour: the **Note aggregate**. A note has a title, content, a background, an owner fixed at creation, pictures, collaborators and labels, and an archived flag. The project also models the small piece of logic in the notes HTTP endpoint: the mapping from the background name in a create request to a `NoteBackground`, and the defaults of a paginated request.

Files:

- `wrappers.dfy` (module `Wrappers`): `Option` and `Outcome`, used for nullable lookups and for an operation that may throw.
- `collaborators.dfy` (module `Collaborators`): the collaborator list as a value. It has the first-match lookup the aggregate uses (`FirstOrDefault`) and the list after adding or removing a collaborator, with lemmas about both.
- `labels.dfy` (module `Labels`): the label list as a value. It has the list after adding a label and after removing every label with a name, with lemmas about both.
- `note.dfy` (module `Notes`): the `Note` class.
  - Its fields are the aggregate's state.
  - `ownerId` is a `const`.
  - The list fields are `seq`s that the methods reassign.
  - The pending domain events are a `seq` field.
  - `Valid()` is the invariant: the owner is never a collaborator, collaborator ids are unique and label names are unique.
  - Every method keeps `Valid()` and changes only the fields its `modifies` clause names.
  - `UserCanEdit` is a function that reads the note.
- `endpoints.dfy` (module `NoteEndpoints`): the background-name mapping and `RequestWithPagination`.
- `scenarios.dfy` (module `NoteScenarios`): usage scenarios, each proved from the method contracts alone.

The methods work on any state, not only valid ones, just as the C# code does. Lookups use the first matching entry, as `FirstOrDefault` does. `AddCollaborator`'s `ArgumentException` is returned as `Fail(ArgumentError("collaboratorId", "Cannot add the owner as a collaborator."))` and leaves the note unchanged.

## Model

| member | source | states |
|---|---|---|
| Notes.Note.Valid | src/Domain/Notes/Note.cs:25-85 | the aggregate invariant; when it holds the owner is not a collaborator and no label name occurs twice |
| Notes.Note.constructor | src/Domain/Notes/Note.cs:17-23 | stores the given title, content, owner and background (Default when omitted); not archived; pictures, collaborators, labels and pending events are empty; the invariant holds |
| Notes.Note.AddCollaborator | src/Domain/Notes/Note.cs:25-42 | fails with the argument error exactly when the id is the owner's, and then leaves the list unchanged; otherwise the list becomes `CollaboratorsAfterAdd` (permission defaults to Read); only the collaborator list can change; the invariant is kept |
| Notes.Note.RemoveCollaborator | src/Domain/Notes/Note.cs:44-49 | the list becomes `CollaboratorsAfterRemove`; nothing else changes; the invariant is kept |
| Notes.Note.UserCanEdit | src/Domain/Notes/Note.cs:51-62 | reads only the note; false for everyone, the owner included, while archived; otherwise true for the owner; otherwise true exactly when the user's first entry grants ReadWrite |
| Notes.Note.CanEditUnderInvariant | src/Domain/Notes/Note.cs:51-62 | with unique ids: a user may edit iff the note is not archived and the user is the owner or some entry gives them ReadWrite |
| Notes.Note.Modify | src/Domain/Notes/Note.cs:64-67 | sets title and content; no other field changes (no archive or permission check, as in the source) |
| Notes.Note.AddLabel | src/Domain/Notes/Note.cs:78-85 | the labels become `LabelsAfterAdd`; nothing else changes; names stay unique |
| Notes.Note.RemoveLabel | src/Domain/Notes/Note.cs:87-89 | the labels become `LabelsAfterRemove`; nothing else changes; names stay unique |
| Notes.Note.Archive | src/Domain/Notes/Note.cs:91-98 | the note is archived afterwards; one NoteArchivedEvent for this note is appended only if it was not archived before; a repeated call adds no event |
| Collaborators.FirstIndexOf | src/Domain/Notes/Note.cs:32 | the result is a position holding the id with no earlier position holding it; None exactly when no entry holds the id |
| Collaborators.PermissionOf | src/Domain/Notes/Note.cs:60-61 | a permission is found exactly when the user is a collaborator, and it is the permission of one of that user's entries |
| Collaborators.CollaboratorsAfterAdd | src/Domain/Notes/Note.cs:31-41 | the list grows by one exactly when the user was not a collaborator; the user is a collaborator afterwards; existing entries keep their ids, note ids and positions |
| Collaborators.CollaboratorsAfterRemove | src/Domain/Notes/Note.cs:45-48 | the list shrinks by one exactly when the user was a collaborator; no entry is introduced |
| Collaborators.FirstIndexOfIsFirst | src/Domain/Notes/Note.cs:45 | the first position holding an id is the one the lookup returns |
| Collaborators.FirstIndexOfDistinct | src/Domain/Notes/Note.cs:60 | with unique ids, the lookup of an entry's id returns that entry's position |
| Collaborators.AddExisting | src/Domain/Notes/Note.cs:31-34 | re-adding a present collaborator keeps the length and order, gives that entry the new permission (same id and note id) and leaves every other entry as it was |
| Collaborators.AddNew | src/Domain/Notes/Note.cs:35-41 | adding a new user appends exactly one entry carrying that id, the note's id and the permission |
| Collaborators.AddLookup | src/Domain/Notes/Note.cs:25-41 | after adding, the user's permission is the new one and every other user's permission is unchanged |
| Collaborators.AddTwiceLastWins | src/Domain/Notes/Note.cs:31-41 | adding the same user with p1 and then p2 gives the same list as adding them once with p2 |
| Collaborators.AddKeepsInvariant | src/Domain/Notes/Note.cs:25-41 | adding a non-owner keeps ids unique and the owner out of the list |
| Collaborators.RemoveAbsent | src/Domain/Notes/Note.cs:44-49 | removing a user who is not a collaborator leaves the list unchanged |
| Collaborators.RemovePresent | src/Domain/Notes/Note.cs:44-49 | removing a collaborator shortens the list by one; entries before theirs stay in place, later ones shift down by one in order |
| Collaborators.RemoveMembership | src/Domain/Notes/Note.cs:44-49 | with unique ids, an entry remains iff it was there and belongs to someone else |
| Collaborators.RemoveKeepsInvariant | src/Domain/Notes/Note.cs:44-49 | removal keeps ids unique and the owner out of the list |
| Collaborators.RemoveIdempotent | src/Domain/Notes/Note.cs:44-49 | with unique ids, removing the same user twice equals removing them once |
| Collaborators.RemoveLookup | src/Domain/Notes/Note.cs:44-49 | with unique ids, the removed user has no permission left and every other user's permission is unchanged |
| Labels.HasLabel | src/Domain/Notes/Note.cs:79 | some label has the name iff a label with exactly that name is in the list |
| Labels.LabelsAfterAdd | src/Domain/Notes/Note.cs:79-84 | the list grows by one exactly when the name was absent; the existing labels stay as a prefix in order; the label is present afterwards |
| Labels.LabelsAfterRemove | src/Domain/Notes/Note.cs:88 | never longer than the input; a label remains iff it was there and has a different name |
| Labels.AddNames | src/Domain/Notes/Note.cs:78-85 | after adding, the name is present and every other name is present iff it was before |
| Labels.AddIdempotent | src/Domain/Notes/Note.cs:78-85 | adding the same label twice equals adding it once |
| Labels.AddKeepsDistinct | src/Domain/Notes/Note.cs:78-85 | adding keeps label names unique |
| Labels.RemoveNames | src/Domain/Notes/Note.cs:87-89 | after removal no label has the name; every other name is present iff it was before |
| Labels.RemoveAppend | src/Domain/Notes/Note.cs:88 | removal distributes over concatenation, so the labels that stay keep their relative order |
| Labels.RemoveAbsent | src/Domain/Notes/Note.cs:88 | removing a name no label has leaves the list unchanged |
| Labels.RemoveIdempotent | src/Domain/Notes/Note.cs:87-89 | removing the same name twice equals removing it once |
| Labels.RemoveKeepsDistinct | src/Domain/Notes/Note.cs:87-89 | removal keeps label names unique |
| Labels.RemoveUndoesAdd | src/Domain/Notes/Note.cs:78-89 | adding a label and then removing its name equals only removing the name |
| NoteEndpoints.ToLower | src/Web/Endpoints/Notes.cs:68 | same length as the input; each character is lower-cased |
| NoteEndpoints.ToLowerIdempotent | src/Web/Endpoints/Notes.cs:68 | lower-casing twice equals lower-casing once |
| NoteEndpoints.ToLowerOfUpper | src/Web/Endpoints/Notes.cs:68 | lower-casing an upper-cased string gives the lower case of the original |
| NoteEndpoints.LowerCharIs | src/Web/Endpoints/Notes.cs:68 | the characters that lower-case to a lower-case letter are that letter and its upper case |
| NoteEndpoints.ToLowerMatches | src/Web/Endpoints/Notes.cs:68 | an input lower-cases to a lower-case word iff it has the word's length and each position holds that letter in either case |
| NoteEndpoints.BackgroundFromName | src/Web/Endpoints/Notes.cs:68-74 | the result is Default or the background whose request name is the lower-cased input |
| NoteEndpoints.KnownNames | src/Web/Endpoints/Notes.cs:68-72 | "red", "blue", "green" and "island" select Red, Blue, Green and IslandImage |
| NoteEndpoints.BackgroundFromNameIff | src/Web/Endpoints/Notes.cs:68-74 | each non-Default background comes exactly from its lower-cased name; any other input gives Default, so the mapping is total over present strings |
| NoteEndpoints.CaseInsensitive | src/Web/Endpoints/Notes.cs:68 | inputs with equal lower case map alike; an input, its lower case and its upper case map alike |
| NoteEndpoints.RedInAnyCase | src/Web/Endpoints/Notes.cs:68-69 | "RED" and "Red" both select Red |
| NoteEndpoints.IslandOnlyFromIsland | src/Web/Endpoints/Notes.cs:72-73 | IslandImage comes exactly from "island" with each letter in either case |
| NoteEndpoints.OtherLengthGivesDefault | src/Web/Endpoints/Notes.cs:73 | an input whose length is not 3, 4, 5 or 6 selects Default |
| NoteEndpoints.IslandImageNameGivesDefault | src/Web/Endpoints/Notes.cs:72-73 | "islandimage" and "IslandImage" select Default, not IslandImage |
| NoteEndpoints.RequestNameRoundTrip | src/Web/Endpoints/Notes.cs:68-74 | each background's request name selects that background |
| NoteEndpoints.NameRoundTrip | src/Web/Endpoints/Notes.cs:68-74 | an input that selects a non-Default background lower-cases to that background's request name |
| NoteEndpoints.PaginationDefaults | src/Web/Endpoints/Notes.cs:172 | an omitted page number is 1 and an omitted page size is 10; a supplied value is kept |
| NoteScenarios.SharedEditorCanEdit | src/Domain/Notes/Note.cs:25-62 | from the contracts alone: after sharing a new note with a user as ReadWrite, that user may edit it |
| NoteScenarios.OwnerCannotCollaborate | src/Domain/Notes/Note.cs:25-29 | from the contracts alone: adding the owner of a new note fails with the argument error and the list stays empty |
| NoteScenarios.RemovingAbsentUserKeepsList | src/Domain/Notes/Note.cs:44-49 | from the contracts alone: removing a user the note is not shared with keeps the one existing collaborator |
| NoteScenarios.LabelAddedTwiceIsPresentOnce | src/Domain/Notes/Note.cs:78-85 | from the contracts alone: a label added twice to a new note is on it exactly once |
| NoteScenarios.ArchiveTwice | src/Domain/Notes/Note.cs:51-98 | from the contracts alone: archiving a new note twice raises exactly one event, and the owner may not edit it afterwards |

## Left out

- `AddPicture` and `RemovePicture` are empty stubs in the source. The model keeps only the picture list, which the constructor leaves empty.
- Unarchiving: `Note` has no such method. The endpoint sends a command whose handler is not part of this model.
- Endpoint handlers other than the background mapping are left out: mediator dispatch, not-found-to-HTTP translation, picture upload, file storage and Base64 data URLs. They are I/O and framework code.
- The create-note validator (title at most 200 characters, non-empty title, content and user id) is not modelled. The aggregate does not enforce it, and the meaning of "non-empty" is defined by a validation library that is not part of this model.
- NoteEndpoints.ToLower: lower-cases ASCII letters only. .NET's `ToLower` applies the current culture's full Unicode case mapping. In a Turkish culture, for example, "İSLAND" lower-cases to "island" and selects IslandImage. In the same culture, "ISLAND" and "Island" lower-case to "ısland" (dotless ı) and select Default. So `IslandOnlyFromIsland`, `CaseInsensitive` and `RedInAnyCase` hold only under culture-neutral casing.
- NoteEndpoints.BackgroundFromName: the model's strings are never null. When the JSON body omits `background` or sends `null`, the request field is null and `ToLower()` throws `NullReferenceException` before the switch. The mapping is total only over present strings, and that failure path is not modelled.
- Notes.Note.AddCollaborator: collaborators are values, so a permission change is a sequence update. Aliasing of `NoteCollaborator` objects held elsewhere is not modelled.
- `Id` comes from the base entity and is assigned by persistence. The model treats it as an opaque integer: the constructor leaves it unconstrained and no method changes it.
- Domain event delivery is not modelled. The model keeps the queue of pending events; draining it belongs to persistence.
- Audit fields of the base entity are not modelled.
- `Label` and `NotePicture` are modelled by their name and path only. Their persistence ids are not modelled.
