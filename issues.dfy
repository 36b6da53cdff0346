/** The issue table of the server: the records persisted under `issues` in the
    data file and the pure sub-expressions its route handlers are built from
    (id assignment, lookup by id, shallow merge, filtering by id). */
module Issues {
  import opened Wrappers

  /** One tracked broken promise. `status` is any string: the update route
      does not validate it. */
  datatype Issue = Issue(
    id: int,
    title: string,
    description: string,
    datePromised: string,
    status: string)

  /** The body of a create request. Its `status` is accepted and ignored. */
  datatype NewIssueBody = NewIssueBody(
    title: string,
    description: string,
    datePromised: string,
    status: string)

  /** The body of an update request: every field may be absent, and an `id`
      the client sends is overridden by the id in the path. */
  datatype Patch = Patch(
    id: Option<int>,
    title: Option<string>,
    description: Option<string>,
    datePromised: Option<string>,
    status: Option<string>)

  /** No two issues share an id. */
  ghost predicate UniqueIds(s: seq<Issue>) {
    forall i, j :: 0 <= i < j < |s| ==> s[i].id != s[j].id
  }

  /** Whether an issue matches the id parsed from a request path; a path that
      does not parse (`NaN`, here `None`) matches no issue. */
  predicate Matches(issue: Issue, pid: Option<int>)
    ensures pid.None? ==> !Matches(issue, pid)
    ensures Matches(issue, pid) <==> pid == Some(issue.id)
  {
    pid.Some? && issue.id == pid.value
  }

  /** The largest id in a non-empty table. */
  function MaxId(s: seq<Issue>): (m: int)
    requires |s| > 0
    ensures forall i :: 0 <= i < |s| ==> s[i].id <= m
    ensures exists i :: 0 <= i < |s| && s[i].id == m
  {
    if |s| == 1 then s[0].id
    else
      var rest := MaxId(s[1..]);
      assert forall i :: 1 <= i < |s| ==> s[i] == s[1..][i - 1];
      if s[0].id >= rest then s[0].id else rest
  }

  /** The id a created issue receives: one more than the largest id, or 1 for
      an empty table. */
  function NextId(s: seq<Issue>): (id: int)
    ensures s == [] ==> id == 1
    ensures forall i :: 0 <= i < |s| ==> s[i].id < id
    ensures s != [] ==> exists i :: 0 <= i < |s| && s[i].id == id - 1
  {
    if |s| > 0 then MaxId(s) + 1 else 1
  }

  /** The issue a create request adds: fresh id, fields copied from the body,
      status forced to "pending". */
  function NewIssue(s: seq<Issue>, body: NewIssueBody): (issue: Issue)
    ensures forall i :: 0 <= i < |s| ==> s[i].id < issue.id
    ensures issue.status == "pending"
    ensures issue.title == body.title && issue.description == body.description
    ensures issue.datePromised == body.datePromised
  {
    Issue(NextId(s), body.title, body.description, body.datePromised, "pending")
  }

  /** The first index whose issue matches `pid`, as `findIndex` finds it. */
  function FirstMatch(s: seq<Issue>, pid: Option<int>): (k: Option<nat>)
    ensures k.None? <==> forall i :: 0 <= i < |s| ==> !Matches(s[i], pid)
    ensures k.Some? ==> k.value < |s| && Matches(s[k.value], pid)
    ensures k.Some? ==> forall i :: 0 <= i < k.value ==> !Matches(s[i], pid)
  {
    if s == [] then None
    else if Matches(s[0], pid) then Some(0)
    else
      var rest := FirstMatch(s[1..], pid);
      assert forall i :: 1 <= i < |s| ==> s[i] == s[1..][i - 1];
      match rest
      case None => None
      case Some(j) => Some(j + 1)
  }

  /** Shallow merge of an update body over a stored issue, with the id pinned
      afterwards: `{ ...stored, ...patch, id }`. */
  function Merge(stored: Issue, patch: Patch, id: int): (merged: Issue)
    ensures merged.id == id
    ensures (patch.title.None? && patch.description.None? &&
             patch.datePromised.None? && patch.status.None?) ==> merged == stored.(id := id)
  {
    Issue(
      id,
      patch.title.GetOr(stored.title),
      patch.description.GetOr(stored.description),
      patch.datePromised.GetOr(stored.datePromised),
      patch.status.GetOr(stored.status))
  }

  /** The issues whose id is not `pid`, in their order: `filter(issue =>
      issue.id !== id)`. */
  function Without(s: seq<Issue>, pid: Option<int>): (r: seq<Issue>)
    ensures |r| <= |s|
    ensures forall x :: x in r ==> x in s && !Matches(x, pid)
  {
    if s == [] then []
    else if Matches(s[0], pid) then Without(s[1..], pid)
    else [s[0]] + Without(s[1..], pid)
  }

  /** A created issue has an id no stored issue has, so appending it keeps
      the ids unique. */
  lemma CreateKeepsIdsUnique(s: seq<Issue>, body: NewIssueBody)
    requires UniqueIds(s)
    ensures UniqueIds(s + [NewIssue(s, body)])
  {
    var t := s + [NewIssue(s, body)];
    forall i, j | 0 <= i < j < |t| ensures t[i].id != t[j].id {
      if j == |s| {
        assert t[i] == s[i];
      } else {
        assert t[i] == s[i] && t[j] == s[j];
      }
    }
  }

  /** The merged record keeps the stored id whenever the lookup matched it. */
  lemma MergeKeepsId(stored: Issue, patch: Patch, pid: Option<int>)
    requires Matches(stored, pid)
    ensures Merge(stored, patch, pid.value).id == stored.id
  {
  }

  /** Shallow merge: a field present in the body replaces the stored value,
      an absent one keeps it; an `id` in the body never survives. */
  lemma MergeIsShallow(stored: Issue, patch: Patch, id: int)
    ensures Merge(stored, patch, id).id == id
    ensures patch.title.Some? ==> Merge(stored, patch, id).title == patch.title.value
    ensures patch.title.None? ==> Merge(stored, patch, id).title == stored.title
    ensures patch.description.Some? ==> Merge(stored, patch, id).description == patch.description.value
    ensures patch.description.None? ==> Merge(stored, patch, id).description == stored.description
    ensures patch.datePromised.Some? ==> Merge(stored, patch, id).datePromised == patch.datePromised.value
    ensures patch.datePromised.None? ==> Merge(stored, patch, id).datePromised == stored.datePromised
    ensures patch.status.Some? ==> Merge(stored, patch, id).status == patch.status.value
    ensures patch.status.None? ==> Merge(stored, patch, id).status == stored.status
  {
  }

  /** Replacing one issue by one with the same id keeps the ids unique. */
  lemma ReplaceKeepsIdsUnique(s: seq<Issue>, k: nat, x: Issue)
    requires UniqueIds(s)
    requires k < |s| && x.id == s[k].id
    ensures UniqueIds(s[k := x])
  {
  }

  /** Filtering distributes over concatenation, and on one issue it keeps the
      issue exactly when it does not match: together these fix `Without` as
      the order-preserving filter. */
  lemma {:induction false} WithoutAppend(a: seq<Issue>, b: seq<Issue>, pid: Option<int>)
    ensures Without(a + b, pid) == Without(a, pid) + Without(b, pid)
  {
    if a == [] {
      assert a + b == b;
    } else {
      assert (a + b)[1..] == a[1..] + b;
      WithoutAppend(a[1..], b, pid);
    }
  }

  lemma WithoutSingle(x: Issue, pid: Option<int>)
    ensures Without([x], pid) == if Matches(x, pid) then [] else [x]
  {
    assert [x][1..] == [];
  }

  /** Every issue that does not match survives the filter. */
  lemma {:induction false} WithoutKeepsOthers(s: seq<Issue>, pid: Option<int>, x: Issue)
    requires x in s && !Matches(x, pid)
    ensures x in Without(s, pid)
  {
    if s[0] != x {
      WithoutKeepsOthers(s[1..], pid, x);
    }
  }

  /** The filter removes nothing exactly when no issue matches, and then it
      gives back the table unchanged. */
  lemma {:induction false} WithoutRemovesNothingIff(s: seq<Issue>, pid: Option<int>)
    ensures |Without(s, pid)| == |s| <==> forall i :: 0 <= i < |s| ==> !Matches(s[i], pid)
    ensures (forall i :: 0 <= i < |s| ==> !Matches(s[i], pid)) ==> Without(s, pid) == s
  {
    if s != [] {
      WithoutRemovesNothingIff(s[1..], pid);
      assert forall i :: 1 <= i < |s| ==> s[i] == s[1..][i - 1];
      if !Matches(s[0], pid) {
        assert [s[0]] + s[1..] == s;
      }
    }
  }

  /** Filtering keeps the ids unique. */
  lemma {:induction false} WithoutKeepsIdsUnique(s: seq<Issue>, pid: Option<int>)
    requires UniqueIds(s)
    ensures UniqueIds(Without(s, pid))
  {
    if s != [] {
      assert forall i :: 1 <= i < |s| ==> s[i] == s[1..][i - 1];
      WithoutKeepsIdsUnique(s[1..], pid);
      if !Matches(s[0], pid) {
        var r := Without(s, pid);
        var rest := Without(s[1..], pid);
        assert r == [s[0]] + rest;
        forall i, j | 0 <= i < j < |r| ensures r[i].id != r[j].id {
          if i == 0 {
            assert r[j] == rest[j - 1] && r[j] in s[1..];
          } else {
            assert r[i] == rest[i - 1] && r[j] == rest[j - 1];
          }
        }
      }
    }
  }
}
