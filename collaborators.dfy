/**
 * The collaborator list of a note, as a value.
 *
 * A note shares itself with other users through an ordered list of
 * `NoteCollaborator` entries, each carrying the collaborator's user id, the id
 * of the note and a permission level. This module gives the list lookups the
 * aggregate uses (`FirstOrDefault` over the list) and the effect of adding and
 * removing a collaborator, with the lemmas that say what those effects mean.
 */
module Collaborators {
  import opened Wrappers

  /** The access a collaborator has to a note. */
  datatype CollaboratorPermissions = Read | ReadWrite

  /** One entry of a note's collaborator list. */
  datatype NoteCollaborator = NoteCollaborator(collaboratorId: string, noteId: int, permissions: CollaboratorPermissions)

  /** No two entries share a collaborator id. */
  predicate DistinctIds(cs: seq<NoteCollaborator>) {
    forall i, j :: 0 <= i < j < |cs| ==> cs[i].collaboratorId != cs[j].collaboratorId
  }

  /** The note's owner does not appear among the collaborators. */
  predicate ExcludesOwner(cs: seq<NoteCollaborator>, ownerId: string) {
    forall i :: 0 <= i < |cs| ==> cs[i].collaboratorId != ownerId
  }

  /** Some entry carries the given collaborator id. */
  predicate IsCollaborator(cs: seq<NoteCollaborator>, id: string) {
    exists i :: 0 <= i < |cs| && cs[i].collaboratorId == id
  }

  /**
   * The position of the first entry whose collaborator id is `id`, if any:
   * the list search `Collaborators.FirstOrDefault(c => c.CollaboratorId == id)`.
   */
  function FirstIndexOf(cs: seq<NoteCollaborator>, id: string): (r: Option<nat>)
    ensures r.Some? ==> r.value < |cs| && cs[r.value].collaboratorId == id
    ensures r.Some? ==> forall j :: 0 <= j < r.value ==> cs[j].collaboratorId != id
    ensures r.None? <==> !IsCollaborator(cs, id)
  {
    if |cs| == 0 then None
    else if cs[0].collaboratorId == id then Some(0)
    else match FirstIndexOf(cs[1..], id)
      case Some(i) => Some(i + 1)
      case None => None
  }

  /** The permission of the first entry for `userId`, or None when the user is not a collaborator. */
  function PermissionOf(cs: seq<NoteCollaborator>, userId: string): (r: Option<CollaboratorPermissions>)
    ensures r.Some? <==> IsCollaborator(cs, userId)
    ensures r.Some? ==> exists i :: 0 <= i < |cs| && cs[i].collaboratorId == userId && cs[i].permissions == r.value
  {
    match FirstIndexOf(cs, userId)
    case Some(i) => Some(cs[i].permissions)
    case None => None
  }

  /**
   * The list after a successful `AddCollaborator(id, permissions)` on note `noteId`:
   * an existing entry gets the new permission in place, otherwise a new entry is appended.
   */
  function CollaboratorsAfterAdd(cs: seq<NoteCollaborator>, noteId: int, id: string, permissions: CollaboratorPermissions): (r: seq<NoteCollaborator>)
    ensures |r| == if IsCollaborator(cs, id) then |cs| else |cs| + 1
    ensures IsCollaborator(r, id)
    ensures forall j :: 0 <= j < |cs| ==> r[j].collaboratorId == cs[j].collaboratorId && r[j].noteId == cs[j].noteId
  {
    match FirstIndexOf(cs, id)
    case Some(i) =>
      var r := cs[i := cs[i].(permissions := permissions)];
      assert r[i].collaboratorId == id;
      r
    case None =>
      var r := cs + [NoteCollaborator(id, noteId, permissions)];
      assert r[|cs|].collaboratorId == id;
      r
  }

  /** The list after `RemoveCollaborator(id)`: the first entry for `id` is dropped, if there is one. */
  function CollaboratorsAfterRemove(cs: seq<NoteCollaborator>, id: string): (r: seq<NoteCollaborator>)
    ensures |r| == if IsCollaborator(cs, id) then |cs| - 1 else |cs|
    ensures forall c :: c in r ==> c in cs
  {
    match FirstIndexOf(cs, id)
    case Some(i) => cs[..i] + cs[i + 1..]
    case None => cs
  }

  /** FirstIndexOf finds exactly the first matching position. */
  lemma FirstIndexOfIsFirst(cs: seq<NoteCollaborator>, id: string, i: nat)
    requires i < |cs| && cs[i].collaboratorId == id
    requires forall j :: 0 <= j < i ==> cs[j].collaboratorId != id
    ensures FirstIndexOf(cs, id) == Some(i)
  {
  }

  /** With distinct ids, an entry's position is the first position of its id. */
  lemma FirstIndexOfDistinct(cs: seq<NoteCollaborator>, i: nat)
    requires DistinctIds(cs) && i < |cs|
    ensures FirstIndexOf(cs, cs[i].collaboratorId) == Some(i)
  {
    FirstIndexOfIsFirst(cs, cs[i].collaboratorId, i);
  }

  /**
   * Re-adding a collaborator that is already present keeps the length and the
   * order, gives that entry the new permission and changes no other entry.
   */
  lemma AddExisting(cs: seq<NoteCollaborator>, noteId: int, id: string, permissions: CollaboratorPermissions, i: nat)
    requires i < |cs| && cs[i].collaboratorId == id
    requires forall j :: 0 <= j < i ==> cs[j].collaboratorId != id
    ensures |CollaboratorsAfterAdd(cs, noteId, id, permissions)| == |cs|
    ensures CollaboratorsAfterAdd(cs, noteId, id, permissions)[i]
         == NoteCollaborator(id, cs[i].noteId, permissions)
    ensures forall j :: 0 <= j < |cs| && j != i ==> CollaboratorsAfterAdd(cs, noteId, id, permissions)[j] == cs[j]
  {
    FirstIndexOfIsFirst(cs, id, i);
  }

  /** Adding a user who is not yet a collaborator appends exactly one entry at the end. */
  lemma AddNew(cs: seq<NoteCollaborator>, noteId: int, id: string, permissions: CollaboratorPermissions)
    requires !IsCollaborator(cs, id)
    ensures CollaboratorsAfterAdd(cs, noteId, id, permissions) == cs + [NoteCollaborator(id, noteId, permissions)]
  {
  }

  /** After adding, the user's permission is the new one and every other user's lookup is unchanged. */
  lemma AddLookup(cs: seq<NoteCollaborator>, noteId: int, id: string, permissions: CollaboratorPermissions, u: string)
    ensures PermissionOf(CollaboratorsAfterAdd(cs, noteId, id, permissions), id) == Some(permissions)
    ensures u != id ==> PermissionOf(CollaboratorsAfterAdd(cs, noteId, id, permissions), u) == PermissionOf(cs, u)
  {
    var r := CollaboratorsAfterAdd(cs, noteId, id, permissions);
    match FirstIndexOf(cs, id)
    case Some(i) =>
      FirstIndexOfIsFirst(r, id, i);
      if u != id {
        match FirstIndexOf(cs, u)
        case Some(k) => FirstIndexOfIsFirst(r, u, k);
        case None =>
      }
    case None =>
      FirstIndexOfIsFirst(r, id, |cs|);
      if u != id {
        match FirstIndexOf(cs, u)
        case Some(k) => FirstIndexOfIsFirst(r, u, k);
        case None =>
      }
  }

  /**
   * Adding the same collaborator twice leaves one entry carrying the most
   * recent permission: the second call overrides the first.
   */
  lemma AddTwiceLastWins(cs: seq<NoteCollaborator>, noteId: int, id: string, p1: CollaboratorPermissions, p2: CollaboratorPermissions)
    ensures CollaboratorsAfterAdd(CollaboratorsAfterAdd(cs, noteId, id, p1), noteId, id, p2)
         == CollaboratorsAfterAdd(cs, noteId, id, p2)
  {
    var once := CollaboratorsAfterAdd(cs, noteId, id, p1);
    match FirstIndexOf(cs, id)
    case Some(i) =>
      FirstIndexOfIsFirst(once, id, i);
    case None =>
      FirstIndexOfIsFirst(once, id, |cs|);
      assert once[|cs| := once[|cs|].(permissions := p2)] == cs + [NoteCollaborator(id, noteId, p2)];
  }

  /** A successful add of a non-owner keeps ids distinct and the owner out of the list. */
  lemma AddKeepsInvariant(cs: seq<NoteCollaborator>, ownerId: string, noteId: int, id: string, permissions: CollaboratorPermissions)
    requires DistinctIds(cs) && ExcludesOwner(cs, ownerId) && id != ownerId
    ensures DistinctIds(CollaboratorsAfterAdd(cs, noteId, id, permissions))
    ensures ExcludesOwner(CollaboratorsAfterAdd(cs, noteId, id, permissions), ownerId)
  {
    var r := CollaboratorsAfterAdd(cs, noteId, id, permissions);
    match FirstIndexOf(cs, id)
    case Some(i) =>
      assert forall j :: 0 <= j < |r| ==> r[j].collaboratorId == cs[j].collaboratorId;
    case None =>
      assert forall j :: 0 <= j < |cs| ==> r[j] == cs[j];
  }

  /** Removing a user who is not a collaborator leaves the list as it was. */
  lemma RemoveAbsent(cs: seq<NoteCollaborator>, id: string)
    requires !IsCollaborator(cs, id)
    ensures CollaboratorsAfterRemove(cs, id) == cs
  {
  }

  /** Removing a collaborator drops exactly their first entry and keeps the others in order. */
  lemma RemovePresent(cs: seq<NoteCollaborator>, id: string, i: nat)
    requires i < |cs| && cs[i].collaboratorId == id
    requires forall j :: 0 <= j < i ==> cs[j].collaboratorId != id
    ensures |CollaboratorsAfterRemove(cs, id)| == |cs| - 1
    ensures forall j :: 0 <= j < i ==> CollaboratorsAfterRemove(cs, id)[j] == cs[j]
    ensures forall j :: i <= j < |cs| - 1 ==> CollaboratorsAfterRemove(cs, id)[j] == cs[j + 1]
  {
    FirstIndexOfIsFirst(cs, id, i);
  }

  /** With distinct ids, a removed collaborator is gone entirely and the others stay. */
  lemma RemoveMembership(cs: seq<NoteCollaborator>, id: string, c: NoteCollaborator)
    requires DistinctIds(cs)
    ensures c in CollaboratorsAfterRemove(cs, id) <==> c in cs && c.collaboratorId != id
  {
    var r := CollaboratorsAfterRemove(cs, id);
    match FirstIndexOf(cs, id)
    case Some(i) =>
      assert |r| == |cs| - 1;
      assert forall j :: 0 <= j < |r| ==> r[j] == cs[if j < i then j else j + 1];
      if c in cs && c.collaboratorId != id {
        var k :| 0 <= k < |cs| && cs[k] == c;
        assert k != i;
        assert r[if k < i then k else k - 1] == c;
      }
      if c in r {
        var k :| 0 <= k < |r| && r[k] == c;
        var m := if k < i then k else k + 1;
        assert cs[m] == c && m != i;
      }
    case None =>
  }

  /** A removal keeps ids distinct and the owner out of the list. */
  lemma RemoveKeepsInvariant(cs: seq<NoteCollaborator>, ownerId: string, id: string)
    requires DistinctIds(cs) && ExcludesOwner(cs, ownerId)
    ensures DistinctIds(CollaboratorsAfterRemove(cs, id))
    ensures ExcludesOwner(CollaboratorsAfterRemove(cs, id), ownerId)
  {
    var r := CollaboratorsAfterRemove(cs, id);
    match FirstIndexOf(cs, id)
    case Some(i) =>
      assert forall j :: 0 <= j < |r| ==> r[j] == cs[if j < i then j else j + 1];
    case None =>
  }

  /** With distinct ids, removing the same collaborator twice has the effect of removing them once. */
  lemma RemoveIdempotent(cs: seq<NoteCollaborator>, id: string)
    requires DistinctIds(cs)
    ensures CollaboratorsAfterRemove(CollaboratorsAfterRemove(cs, id), id) == CollaboratorsAfterRemove(cs, id)
  {
    var r := CollaboratorsAfterRemove(cs, id);
    match FirstIndexOf(cs, id)
    case Some(i) =>
      RemovePresent(cs, id, i);
      forall k | 0 <= k < |r| ensures r[k].collaboratorId != id {
        assert r[k] == cs[if k < i then k else k + 1];
      }
      assert !IsCollaborator(r, id);
    case None =>
  }

  /** With distinct ids, the removed user has no permission left and every other user's lookup is unchanged. */
  lemma RemoveLookup(cs: seq<NoteCollaborator>, id: string, u: string)
    requires DistinctIds(cs)
    ensures PermissionOf(CollaboratorsAfterRemove(cs, id), id).None?
    ensures u != id ==> PermissionOf(CollaboratorsAfterRemove(cs, id), u) == PermissionOf(cs, u)
  {
    var r := CollaboratorsAfterRemove(cs, id);
    match FirstIndexOf(cs, id)
    case Some(i) =>
      assert forall j :: 0 <= j < |r| ==> r[j] == cs[if j < i then j else j + 1];
      assert !IsCollaborator(r, id);
      if u != id {
        match FirstIndexOf(cs, u)
        case Some(k) =>
          assert DistinctIds(r);
          FirstIndexOfDistinct(r, if k < i then k else k - 1);
        case None =>
          assert !IsCollaborator(r, u);
      }
    case None =>
  }
}
