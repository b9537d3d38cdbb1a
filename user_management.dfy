/**
 * frontend/src/pages/UserManagement.tsx: the admin's "create employee" form. Ticking a
 * project's checkbox toggles its id in the selection; a successful POST /auth/create-user
 * clears the form, selection included, and a failed one leaves it as it was.
 */
module UserManagement {
  import opened Wrappers
  import opened Models
  import opened Queries

  /**
   * `toggleProject` (lines 30-36): an id in the selection is filtered out, every
   * occurrence of it; any other id is appended.
   */
  function Toggle(selected: seq<int>, projectId: int): (r: seq<int>)
    ensures projectId in selected ==>
              projectId !in r && forall x :: x != projectId ==> multiset(r)[x] == multiset(selected)[x]
    ensures projectId !in selected ==> r == selected + [projectId]
  {
    if projectId in selected then
      var other := (id: int) => id != projectId;
      var kept := Where(selected, other);
      WhereCounts(selected, other);
      assert forall k :: 0 <= k < |kept| ==> kept[k] != projectId;
      kept
    else selected + [projectId]
  }

  /** The ids other than the toggled one keep their relative order. */
  lemma ToggleKeepsOthersInOrder(selected: seq<int>, projectId: int)
    ensures Where(Toggle(selected, projectId), (id: int) => id != projectId)
         == Where(selected, (id: int) => id != projectId)
  {
    var p := (id: int) => id != projectId;
    if projectId in selected {
      WhereAll(Where(selected, p), p);
    } else {
      WhereConcat(selected, [projectId], p);
      assert Where([projectId], p) == [] + Where([projectId][1..], p);
    }
  }

  /** Ticking a box and unticking it again restores the selection. */
  lemma ToggleTwiceRestores(selected: seq<int>, projectId: int)
    requires projectId !in selected
    ensures Toggle(Toggle(selected, projectId), projectId) == selected
  {
    var p := (id: int) => id != projectId;
    WhereConcat(selected, [projectId], p);
    WhereAll(selected, p);
    assert Where([projectId], p) == [] + Where([projectId][1..], p);
  }

  lemma {:induction false} WhereKeepsDistinct(s: seq<int>, p: int -> bool)
    requires Distinct(s)
    ensures Distinct(Where(s, p))
  {
    if s != [] {
      WhereKeepsDistinct(s[1..], p);
      var rest := Where(s[1..], p);
      WhereCounts(s[1..], p);
      assert multiset(s[1..])[s[0]] == 0 by {
        assert s[0] !in s[1..] by {
          forall k | 0 <= k < |s[1..]| ensures s[1..][k] != s[0] {
            assert s[1..][k] == s[k + 1];
          }
        }
      }
      assert s[0] !in rest by { assert multiset(rest)[s[0]] == 0; }
    }
  }

  /** A selection without repeats stays without repeats. */
  lemma ToggleKeepsDistinct(selected: seq<int>, projectId: int)
    requires Distinct(selected)
    ensures Distinct(Toggle(selected, projectId))
  {
    if projectId in selected {
      WhereKeepsDistinct(selected, (id: int) => id != projectId);
    }
  }

  /** The form's state. */
  class CreateEmployeeForm {
    var username: string
    var password: string
    var selectedProjectIds: seq<int>

    constructor()
      ensures username == "" && password == "" && selectedProjectIds == []
    {
      username, password, selectedProjectIds := "", "", [];
    }

    method ToggleProject(projectId: int)
      modifies this
      ensures selectedProjectIds == Toggle(old(selectedProjectIds), projectId)
      ensures username == old(username) && password == old(password)
      ensures Distinct(old(selectedProjectIds)) ==> Distinct(selectedProjectIds)
    {
      if Distinct(selectedProjectIds) {
        ToggleKeepsDistinct(selectedProjectIds, projectId);
      }
      selectedProjectIds := Toggle(selectedProjectIds, projectId);
    }

    /** handleCreate after the post (lines 41-53): cleared on success, kept on failure. */
    method OnCreateAnswered(succeeded: bool)
      modifies this
      ensures succeeded ==> username == "" && password == "" && selectedProjectIds == []
      ensures !succeeded ==>
        username == old(username) && password == old(password) && selectedProjectIds == old(selectedProjectIds)
    {
      if succeeded {
        username := "";
        password := "";
        selectedProjectIds := [];
      }
    }
  }
}
