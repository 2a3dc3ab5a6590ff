/** The rows of a defect snapshot: what `analyze_issues` demands of an issue and of a comment. */
module DefectRows {
  import opened Decimal
  import opened JsonModel
  import opened Results

  /** An issue row that passed. */
  datatype Issue = Issue(number: int, open: bool, pullRequest: bool, labels: seq<string>, comments: int)

  /** A comment row that passed; `issue` is the number in its `issue_url`. */
  datatype Comment = Comment(issue: int, body: string, association: string)

  const REPOSITORY_URL := "https://api.github.com/repos/n30nex/SIGUI"
  const ISSUE_URL := REPOSITORY_URL + "/issues/"

  predicate LabelValid(strip: string -> string, row: Json) {
    row.Obj? && Get(row, "name").Str? && strip(Get(row, "name").s) != ""
  }

  /** One pass of the loop in `_validate_issue_rows`, apart from repeated numbers. */
  predicate IssueValid(strip: string -> string, row: Json) {
    var number, labels, comments := Get(row, "number"), Get(row, "labels"), Get(row, "comments");
    && row.Obj? && number.Int? && number.n > 0
    && Get(row, "state") in {Str("open"), Str("closed")} && Get(row, "repository_url") == Str(REPOSITORY_URL)
    && Get(row, "title").Str? && (Get(row, "body").Str? || Get(row, "body").Null?)
    && labels.Arr? && (forall i :: 0 <= i < |labels.items| ==> LabelValid(strip, labels.items[i]))
    && comments.Int? && comments.n >= 0
  }

  function IssueOf(strip: string -> string, row: Json): Issue
    requires IssueValid(strip, row)
  {
    var labels := Get(row, "labels").items;
    Issue(
      Get(row, "number").n, Get(row, "state") == Str("open"), Get(row, "pull_request").Obj?,
      seq(|labels|, i requires 0 <= i < |labels| && LabelValid(strip, labels[i]) => Get(labels[i], "name").s),
      Get(row, "comments").n)
  }

  /** `_issue_number_from_comment` */
  function IssueNumber(comment: Json): Option<nat> {
    var url := Get(comment, "issue_url");
    if url.Str? && |url.s| > |ISSUE_URL| && url.s[..|ISSUE_URL|] == ISSUE_URL && url.s[|ISSUE_URL|] != '0'
       && forall c :: c in url.s[|ISSUE_URL|..] ==> IsDigit(c)
    then Some(Value(url.s[|ISSUE_URL|..])) else None
  }

  /** The address of issue `n` names issue `n`. */
  lemma NumberOfUrl(comment: Json, n: nat)
    requires n > 0 && Get(comment, "issue_url") == Str(ISSUE_URL + Dec(n))
    ensures IssueNumber(comment) == Some(n)
  {
    var url := ISSUE_URL + Dec(n);
    assert url[..|ISSUE_URL|] == ISSUE_URL && url[|ISSUE_URL|..] == Dec(n) && url[|ISSUE_URL|] == Dec(n)[0];
    ValueOfDec(n);
  }

  /** One pass of the loop in `_validate_comment_rows`, apart from whether the issue is known. */
  predicate CommentValid(strip: string -> string, row: Json) {
    var user := Get(row, "user");
    && row.Obj? && IssueNumber(row).Some? && Get(row, "body").Str? && Get(row, "created_at").Str?
    && Get(row, "updated_at").Str? && Get(row, "author_association").Str?
    && (user.Null? || (user.Obj? && Get(user, "login").Str? && strip(Get(user, "login").s) != ""))
  }

  function CommentOf(strip: string -> string, row: Json): Comment
    requires CommentValid(strip, row)
  {
    Comment(IssueNumber(row).value, Get(row, "body").s, Get(row, "author_association").s)
  }

  // ----- all rows

  ghost predicate AllIssuesValid(strip: string -> string, rows: seq<Json>) {
    forall i :: 0 <= i < |rows| ==> IssueValid(strip, rows[i])
  }

  ghost function IssuesOf(strip: string -> string, rows: seq<Json>): seq<Issue>
    requires AllIssuesValid(strip, rows)
  {
    seq(|rows|, i requires 0 <= i < |rows| && IssueValid(strip, rows[i]) => IssueOf(strip, rows[i]))
  }

  ghost predicate AllCommentsValid(strip: string -> string, rows: seq<Json>) {
    forall i :: 0 <= i < |rows| ==> CommentValid(strip, rows[i])
  }

  ghost function CommentRows(strip: string -> string, rows: seq<Json>): seq<Comment>
    requires AllCommentsValid(strip, rows)
  {
    seq(|rows|, i requires 0 <= i < |rows| && CommentValid(strip, rows[i]) => CommentOf(strip, rows[i]))
  }

  ghost predicate NumbersValid(issues: seq<Issue>) {
    && (forall i :: 0 <= i < |issues| ==> issues[i].number > 0)
    && (forall i, j :: 0 <= i < j < |issues| ==> issues[i].number != issues[j].number)
  }

  /** `_validate_issue_rows` */
  method ValidateIssueRows(strip: string -> string, rows: seq<Json>) returns (r: Option<seq<Issue>>)
    ensures r.Some? <==> AllIssuesValid(strip, rows) && NumbersValid(IssuesOf(strip, rows))
    ensures r.Some? ==> r.value == IssuesOf(strip, rows)
  {
    hide IssueOf, IssueValid;
    var numbers: set<int> := {};
    var issues: seq<Issue> := [];
    for i := 0 to |rows|
      invariant |issues| == i && forall k :: 0 <= k < i ==> IssueValid(strip, rows[k]) && issues[k] == IssueOf(strip, rows[k])
      invariant forall k :: 0 <= k < i ==> issues[k].number > 0 && issues[k].number in numbers
      invariant forall n :: n in numbers ==> exists k :: 0 <= k < i && issues[k].number == n
      invariant forall k, j :: 0 <= k < j < i ==> issues[k].number != issues[j].number
    {
      if !IssueValid(strip, rows[i]) {
        return None;
      }
      var issue := IssueOf(strip, rows[i]);
      if issue.number in numbers {
        ghost var k :| 0 <= k < i && issues[k].number == issue.number;
        if AllIssuesValid(strip, rows) {
          assert IssuesOf(strip, rows)[k] == issues[k] && IssuesOf(strip, rows)[i] == issue;
        }
        return None;
      }
      PositiveNumber(strip, rows[i]);
      numbers := numbers + {issue.number};
      issues := issues + [issue];
    }
    r := Some(issues);
  }

  lemma PositiveNumber(strip: string -> string, row: Json)
    requires IssueValid(strip, row)
    ensures IssueOf(strip, row).number > 0
  {
  }
}
