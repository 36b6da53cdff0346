/** The route handlers of the server. Each handler reads the whole data file,
    changes the `issues` array of the object it read in place, and writes the
    whole object back. The data file is a parameter: `None` stands for a file
    that cannot be read or parsed, `Some(s)` for one whose `issues` are `s`;
    `writeOk` says whether writing it back succeeds. */
module Server {
  import opened Wrappers
  import opened Issues

  /** What a handler sends back. */
  datatype Response =
    | IssueList(issues: seq<Issue>)   // 200, the array of issues
    | Created(issue: Issue)           // 201, the new issue
    | Updated(issue: Issue)           // 200, the merged issue
    | Deleted                         // 200, a confirmation message
    | NotFound                        // 404
    | ServerError                     // 500
  {
    function StatusCode(): int {
      match this
      case IssueList(_) => 200
      case Created(_) => 201
      case Updated(_) => 200
      case Deleted => 200
      case NotFound => 404
      case ServerError => 500
    }
  }

  /** The issues `readData` yields: the stored ones, or none at all when the
      file cannot be read or parsed. */
  function ReadIssues(file: Option<seq<Issue>>): (issues: seq<Issue>)
    ensures file.None? ==> issues == []
    ensures file.Some? ==> issues == file.value
  {
    file.GetOr([])
  }

  /** The object `readData` returns; handlers mutate its `issues` array. */
  class Data {
    var issues: seq<Issue>

    constructor Read(file: Option<seq<Issue>>)
      ensures issues == ReadIssues(file)
    {
      issues := ReadIssues(file);
    }

    /** Body of the create route: assign the next id and push. */
    method Create(body: NewIssueBody) returns (created: Issue)
      modifies this
      ensures created == NewIssue(old(issues), body)
      ensures issues == old(issues) + [created]
    {
      created := Issue(NextId(issues), body.title, body.description, body.datePromised, "pending");
      issues := issues + [created];
    }

    /** Body of the update route: merge the body over the first issue with
        the id, re-pinning the id; `None` when no issue has it. */
    method Update(pid: Option<int>, patch: Patch) returns (updated: Option<Issue>)
      modifies this
      ensures match FirstMatch(old(issues), pid)
        case None => updated.None? && issues == old(issues)
        case Some(k) =>
          updated == Some(Merge(old(issues)[k], patch, old(issues)[k].id)) &&
          issues == old(issues)[k := updated.value]
    {
      var index := FirstMatch(issues, pid);
      if index.None? {
        return None;
      }
      var k := index.value;
      issues := issues[k := Merge(issues[k], patch, pid.value)];
      updated := Some(issues[k]);
    }

    /** Body of the delete route: filter out every issue with the id and
        report whether the length changed. */
    method Delete(pid: Option<int>) returns (removed: bool)
      modifies this
      ensures issues == Without(old(issues), pid)
      ensures removed <==> exists i :: 0 <= i < |old(issues)| && Matches(old(issues)[i], pid)
      ensures !removed ==> issues == old(issues)
    {
      var initialLength := |issues|;
      WithoutRemovesNothingIff(issues, pid);
      issues := Without(issues, pid);
      removed := |issues| != initialLength;
    }
  }

  /** GET /api/issues: the stored issues as they are, or an empty array when
      the file cannot be read. */
  method GetIssues(file: Option<seq<Issue>>) returns (resp: Response)
    ensures resp.StatusCode() == 200
    ensures file.None? ==> resp == IssueList([])
    ensures file.Some? ==> resp == IssueList(file.value)
  {
    var data := new Data.Read(file);
    resp := IssueList(data.issues);
  }

  /** POST /api/issues: append a new pending issue with a fresh id. */
  method PostIssue(file: Option<seq<Issue>>, body: NewIssueBody, writeOk: bool)
    returns (resp: Response, saved: Option<seq<Issue>>)
    ensures writeOk ==> resp.Created? && resp.StatusCode() == 201
    ensures writeOk ==> saved == Some(ReadIssues(file) + [resp.issue])
    ensures resp.Created? ==> resp.issue.id == NextId(ReadIssues(file))
    ensures resp.Created? ==> forall x :: x in ReadIssues(file) ==> x.id < resp.issue.id
    ensures resp.Created? ==> resp.issue.status == "pending"
    ensures resp.Created? ==>
      resp.issue.title == body.title && resp.issue.description == body.description &&
      resp.issue.datePromised == body.datePromised
    ensures !writeOk ==> resp == ServerError && saved == file
    ensures saved.Some? && UniqueIds(ReadIssues(file)) ==> UniqueIds(saved.value)
  {
    var data := new Data.Read(file);
    var created := data.Create(body);
    if writeOk {
      if UniqueIds(ReadIssues(file)) {
        CreateKeepsIdsUnique(ReadIssues(file), body);
      }
      saved := Some(data.issues);
      resp := Created(created);
    } else {
      saved := file;
      resp := ServerError;
    }
  }

  /** PUT /api/issues/:id: merge the body over the first issue with the id. */
  method PutIssue(file: Option<seq<Issue>>, pid: Option<int>, patch: Patch, writeOk: bool)
    returns (resp: Response, saved: Option<seq<Issue>>)
    ensures FirstMatch(ReadIssues(file), pid).None? ==> resp == NotFound && saved == file
    ensures !writeOk ==> saved == file
    ensures writeOk && FirstMatch(ReadIssues(file), pid).Some? ==>
      var s, k := ReadIssues(file), FirstMatch(ReadIssues(file), pid).value;
      resp == Updated(Merge(s[k], patch, s[k].id)) && saved == Some(s[k := resp.issue])
    ensures !writeOk && FirstMatch(ReadIssues(file), pid).Some? ==> resp == ServerError
    ensures resp.Updated? ==> resp.issue.id == pid.value
    ensures saved.Some? && UniqueIds(ReadIssues(file)) ==> UniqueIds(saved.value)
  {
    var data := new Data.Read(file);
    var updated := data.Update(pid, patch);
    if updated.None? {
      return NotFound, file;
    }
    if writeOk {
      var k := FirstMatch(ReadIssues(file), pid).value;
      if UniqueIds(ReadIssues(file)) {
        ReplaceKeepsIdsUnique(ReadIssues(file), k, updated.value);
      }
      saved := Some(data.issues);
      resp := Updated(updated.value);
    } else {
      saved := file;
      resp := ServerError;
    }
  }

  /** DELETE /api/issues/:id: remove every issue with the id. */
  method DeleteIssue(file: Option<seq<Issue>>, pid: Option<int>, writeOk: bool)
    returns (resp: Response, saved: Option<seq<Issue>>)
    ensures (forall x :: x in ReadIssues(file) ==> !Matches(x, pid)) ==> resp == NotFound && saved == file
    ensures !writeOk ==> saved == file
    ensures writeOk && (exists x :: x in ReadIssues(file) && Matches(x, pid)) ==>
      resp == Deleted && saved == Some(Without(ReadIssues(file), pid))
    ensures !writeOk && (exists x :: x in ReadIssues(file) && Matches(x, pid)) ==> resp == ServerError
    ensures resp == Deleted ==> saved.Some? && forall x :: x in saved.value ==> !Matches(x, pid)
    ensures saved.Some? && UniqueIds(ReadIssues(file)) ==> UniqueIds(saved.value)
  {
    var data := new Data.Read(file);
    var removed := data.Delete(pid);
    if !removed {
      return NotFound, file;
    }
    if writeOk {
      if UniqueIds(ReadIssues(file)) {
        WithoutKeepsIdsUnique(ReadIssues(file), pid);
      }
      saved := Some(data.issues);
      resp := Deleted;
    } else {
      saved := file;
      resp := ServerError;
    }
  }
}
