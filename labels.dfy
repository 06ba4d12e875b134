/**
 * The label list of a note, as a value.
 *
 * A note carries an ordered list of labels identified by name (exact,
 * case-sensitive comparison). Adding a label whose name is already present
 * does nothing; removing a name removes every label with that name.
 */
module Labels {

  /** A label attached to a note. */
  datatype Label = Label(name: string)

  /** Some label carries the name: `Labels.Any(l => l.Name == name)`. */
  predicate HasLabel(ls: seq<Label>, name: string)
    ensures HasLabel(ls, name) <==> Label(name) in ls
  {
    exists i :: 0 <= i < |ls| && ls[i].name == name
  }

  /** No two labels share a name. */
  predicate DistinctNames(ls: seq<Label>) {
    forall i, j :: 0 <= i < j < |ls| ==> ls[i].name != ls[j].name
  }

  /** The list after `AddLabel(name)`. */
  function LabelsAfterAdd(ls: seq<Label>, name: string): (r: seq<Label>)
    ensures |r| == if HasLabel(ls, name) then |ls| else |ls| + 1
    ensures r[..|ls|] == ls
    ensures Label(name) in r
  {
    if HasLabel(ls, name) then ls else ls + [Label(name)]
  }

  /** The list after `RemoveLabel(name)`: `Labels.RemoveAll(l => l.Name == name)`. */
  function LabelsAfterRemove(ls: seq<Label>, name: string): (r: seq<Label>)
    ensures |r| <= |ls|
    ensures forall l :: l in r <==> l in ls && l.name != name
  {
    if |ls| == 0 then []
    else if ls[0].name == name then LabelsAfterRemove(ls[1..], name)
    else [ls[0]] + LabelsAfterRemove(ls[1..], name)
  }

  /** After adding, the name is present and the presence of every other name is unchanged. */
  lemma AddNames(ls: seq<Label>, name: string, other: string)
    ensures HasLabel(LabelsAfterAdd(ls, name), name)
    ensures other != name ==> (HasLabel(LabelsAfterAdd(ls, name), other) <==> HasLabel(ls, other))
  {
    var r := LabelsAfterAdd(ls, name);
    if !HasLabel(ls, name) {
      assert r[|ls|].name == name;
      if HasLabel(ls, other) {
        var k :| 0 <= k < |ls| && ls[k].name == other;
        assert r[k] == ls[k];
      }
      if other != name && HasLabel(r, other) {
        var k :| 0 <= k < |r| && r[k].name == other;
        assert ls[k].name == other;
      }
    }
  }

  /** Adding the same label twice is the same as adding it once. */
  lemma AddIdempotent(ls: seq<Label>, name: string)
    ensures LabelsAfterAdd(LabelsAfterAdd(ls, name), name) == LabelsAfterAdd(ls, name)
  {
    AddNames(ls, name, name);
  }

  /** Adding a label keeps label names unique. */
  lemma AddKeepsDistinct(ls: seq<Label>, name: string)
    requires DistinctNames(ls)
    ensures DistinctNames(LabelsAfterAdd(ls, name))
  {
    var r := LabelsAfterAdd(ls, name);
    if !HasLabel(ls, name) {
      forall i, j | 0 <= i < j < |r| ensures r[i].name != r[j].name {
        if j == |ls| { assert r[i] == ls[i]; }
      }
    }
  }

  /** Removing a name removes every label with that name and only those. */
  lemma {:induction false} RemoveNames(ls: seq<Label>, name: string, other: string)
    ensures !HasLabel(LabelsAfterRemove(ls, name), name)
    ensures other != name ==> (HasLabel(LabelsAfterRemove(ls, name), other) <==> HasLabel(ls, other))
  {
    var r := LabelsAfterRemove(ls, name);
    if other != name && HasLabel(ls, other) {
      var k :| 0 <= k < |ls| && ls[k].name == other;
      assert ls[k] in ls;
      var m :| 0 <= m < |r| && r[m] == ls[k];
    }
    if other != name && HasLabel(r, other) {
      var k :| 0 <= k < |r| && r[k].name == other;
      assert r[k] in r;
      var m :| 0 <= m < |ls| && ls[m] == r[k];
    }
  }

  /** Removal distributes over concatenation: the labels that stay keep their order. */
  lemma {:induction false} RemoveAppend(a: seq<Label>, b: seq<Label>, name: string)
    ensures LabelsAfterRemove(a + b, name) == LabelsAfterRemove(a, name) + LabelsAfterRemove(b, name)
  {
    if |a| == 0 {
      assert a + b == b;
    } else {
      assert (a + b)[1..] == a[1..] + b;
      RemoveAppend(a[1..], b, name);
    }
  }

  /** Removing a name that no label carries leaves the list as it was. */
  lemma {:induction false} RemoveAbsent(ls: seq<Label>, name: string)
    requires !HasLabel(ls, name)
    ensures LabelsAfterRemove(ls, name) == ls
  {
    if |ls| > 0 {
      assert ls[0].name != name;
      assert !HasLabel(ls[1..], name);
      RemoveAbsent(ls[1..], name);
      assert ls == [ls[0]] + ls[1..];
    }
  }

  /** Removing the same name twice is the same as removing it once. */
  lemma RemoveIdempotent(ls: seq<Label>, name: string)
    ensures LabelsAfterRemove(LabelsAfterRemove(ls, name), name) == LabelsAfterRemove(ls, name)
  {
    RemoveNames(ls, name, name);
    RemoveAbsent(LabelsAfterRemove(ls, name), name);
  }

  /** Removing labels keeps the remaining names unique. */
  lemma {:induction false} RemoveKeepsDistinct(ls: seq<Label>, name: string)
    requires DistinctNames(ls)
    ensures DistinctNames(LabelsAfterRemove(ls, name))
  {
    if |ls| > 0 {
      assert DistinctNames(ls[1..]) by {
        forall i, j | 0 <= i < j < |ls[1..]| ensures ls[1..][i].name != ls[1..][j].name {
          assert ls[1..][i] == ls[i + 1] && ls[1..][j] == ls[j + 1];
        }
      }
      RemoveKeepsDistinct(ls[1..], name);
      var rest := LabelsAfterRemove(ls[1..], name);
      if ls[0].name != name {
        var r := [ls[0]] + rest;
        forall i, j | 0 <= i < j < |r| ensures r[i].name != r[j].name {
          if i == 0 {
            assert r[j] in rest;
            var m :| 0 <= m < |ls[1..]| && ls[1..][m] == r[j];
            assert ls[m + 1] == r[j];
          } else {
            assert r[i] == rest[i - 1] && r[j] == rest[j - 1];
          }
        }
      }
    }
  }

  /** Adding a label and then removing its name is the same as only removing the name. */
  lemma RemoveUndoesAdd(ls: seq<Label>, name: string)
    ensures LabelsAfterRemove(LabelsAfterAdd(ls, name), name) == LabelsAfterRemove(ls, name)
  {
    if !HasLabel(ls, name) {
      RemoveAppend(ls, [Label(name)], name);
      assert LabelsAfterRemove([Label(name)], name) == [];
    }
  }
}
