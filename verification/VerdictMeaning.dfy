/** What the verdict on a defect snapshot says of the rows of its issues and comments. */
module VerdictMeaning {
  import opened Decimal
  import opened DefectRows
  import opened DefectVerdict
  import opened JsonModel
  import opened Results
  import opened Text

  /** The issue bears a label that reads like this once stripped and folded. */
  ghost predicate Labeled(t: Context, issue: Json, folded: string) {
    var labels := Get(issue, "labels");
    labels.Arr? && exists l :: l in labels.items && Get(l, "name").Str? && t.fold(t.strip(Get(l, "name").s)) == folded
  }

  /** Of the four classification labels the issue bears this one alone. */
  ghost predicate Solely(t: Context, issue: Json, name: string) {
    && (Labeled(t, issue, t.fold("core-blocker")) <==> name == "core-blocker")
    && (Labeled(t, issue, t.fold("full-feature-deferred")) <==> name == "full-feature-deferred")
    && (Labeled(t, issue, t.fold("evidence-only")) <==> name == "evidence-only")
    && (Labeled(t, issue, t.fold("stale/close after reconciliation")) <==> name == "stale/close after reconciliation")
  }

  /** A comment on issue `n` by someone privileged that names the candidate's commit, run and attempt. */
  ghost predicate Confirming(t: Context, comment: Json, n: int) {
    var body := Get(comment, "body");
    && n > 0 && Get(comment, "issue_url") == Str("https://api.github.com/repos/n30nex/SIGUI/issues/" + Dec(n))
    && Get(comment, "author_association") in {Str("OWNER"), Str("MEMBER"), Str("COLLABORATOR")}
    && body.Str? && Contains(t.fold(body.s), t.fold("CORE_1_0_SCOPE_COMPLETE")) && Contains(t.fold(body.s), t.commit)
    && Contains(t.fold(body.s), "full-feature-deferred") && t.namesRun(t.runId, body.s) && t.namesAttempt(t.attempt, body.s)
  }

  /** Issues 8, 63, 67, 68, 69, 74 and 76 need a comment for their deferral to count. */
  ghost predicate Deferred(t: Context, issue: Json, comments: seq<Json>) {
    var n := Get(issue, "number");
    && Solely(t, issue, "full-feature-deferred")
    && (n in {Int(8), Int(63), Int(67), Int(68), Int(69), Int(74), Int(76)} ==>
          exists c :: c in comments && Confirming(t, c, n.n))
  }

  predicate IsOpen(issue: Json) {
    Get(issue, "state") == Str("open") && !Get(issue, "pull_request").Obj?
  }

  // ----- rows and what is read from them

  /** A comment belongs to the issue its address ends in. */
  lemma NumberedExactly(comment: Json, n: int)
    ensures IssueNumber(comment) == Some(n) <==>
      n > 0 && Get(comment, "issue_url") == Str("https://api.github.com/repos/n30nex/SIGUI/issues/" + Dec(n))
  {
    assert ISSUE_URL == "https://api.github.com/repos/n30nex/SIGUI/issues/";
    var url := Get(comment, "issue_url");
    if IssueNumber(comment) == Some(n) {
      assert url.s == url.s[..|ISSUE_URL|] + url.s[|ISSUE_URL|..];
      DecOfValue(url.s[|ISSUE_URL|..]);
    }
    if n > 0 && url == Str(ISSUE_URL + Dec(n)) {
      NumberOfUrl(comment, n);
    }
  }

  lemma ConfirmingComment(t: Context, row: Json, n: int)
    requires CommentValid(t.strip, row)
    ensures Confirming(t, row, n) <==> CommentOf(t.strip, row).issue == n && Confirmation(t, CommentOf(t.strip, row))
  {
    NumberedExactly(row, n);
    hide IssueNumber, Contains, Dec;
  }

  lemma {:induction false} CommentsOfExactly(comments: seq<Comment>, n: int, c: Comment)
    ensures c in CommentsOf(comments, n) <==> c in comments && c.issue == n
  {
    if comments != [] {
      var init, last := comments[..|comments| - 1], comments[|comments| - 1];
      assert comments == init + [last];
      CommentsOfExactly(init, n, c);
    }
  }

  lemma ConfirmedExactly(t: Context, rows: seq<Json>, n: int)
    requires AllCommentsValid(t.strip, rows)
    ensures Confirmed(t, CommentsOf(CommentRows(t.strip, rows), n)) <==> exists c :: c in rows && Confirming(t, c, n)
  {
    var comments := CommentRows(t.strip, rows);
    var mine := CommentsOf(comments, n);
    hide CommentsOf, CommentValid, CommentOf, Confirmation, Confirming;
    if Confirmed(t, mine) {
      var i :| 0 <= i < |mine| && Confirmation(t, mine[i]);
      CommentsOfExactly(comments, n, mine[i]);
      var k :| 0 <= k < |comments| && comments[k] == mine[i];
      ConfirmingComment(t, rows[k], n);
      assert rows[k] in rows;
    }
    if row :| row in rows && Confirming(t, row, n) {
      var k :| 0 <= k < |rows| && rows[k] == row;
      ConfirmingComment(t, row, n);
      CommentsOfExactly(comments, n, comments[k]);
      var i :| 0 <= i < |mine| && mine[i] == comments[k];
    }
  }

  lemma LabelsExactly(t: Context, row: Json, folded: string)
    requires IssueValid(t.strip, row)
    ensures folded in Labels(t, IssueOf(t.strip, row)) <==> Labeled(t, row, folded)
  {
    var issue, labels := IssueOf(t.strip, row), Get(row, "labels").items;
    if folded in Labels(t, issue) {
      var i :| 0 <= i < |issue.labels| && t.fold(t.strip(issue.labels[i])) == folded;
      assert labels[i] in labels;
    }
    if Labeled(t, row, folded) {
      var l :| l in labels && Get(l, "name").Str? && t.fold(t.strip(Get(l, "name").s)) == folded;
      var i :| 0 <= i < |labels| && labels[i] == l;
      assert issue.labels[i] in issue.labels;
    }
  }

  lemma SolelyExactly(t: Context, row: Json, c: Class)
    requires IssueValid(t.strip, row)
    ensures SolelyClassified(t, Labels(t, IssueOf(t.strip, row)), c) <==> Solely(t, row, LabelOf(c))
  {
    var labels := Labels(t, IssueOf(t.strip, row));
    LabelsExactly(t, row, t.fold("core-blocker"));
    LabelsExactly(t, row, t.fold("full-feature-deferred"));
    LabelsExactly(t, row, t.fold("evidence-only"));
    LabelsExactly(t, row, t.fold("stale/close after reconciliation"));
    hide Labels, Labeled, IssueOf, IssueValid;
    assert Carries(t, labels, CoreBlocker) == Labeled(t, row, t.fold("core-blocker"));
    assert Carries(t, labels, FullFeatureDeferred) == Labeled(t, row, t.fold("full-feature-deferred"));
    assert Carries(t, labels, EvidenceOnly) == Labeled(t, row, t.fold("evidence-only"));
    assert Carries(t, labels, Stale) == Labeled(t, row, t.fold("stale/close after reconciliation"));
    NamesDiffer();
    hide Carries;
    SolelyFour(t, labels, c);
  }

  lemma SolelyFour(t: Context, labels: set<string>, c: Class)
    ensures SolelyClassified(t, labels, c) <==>
      && (Carries(t, labels, CoreBlocker) <==> c == CoreBlocker)
      && (Carries(t, labels, FullFeatureDeferred) <==> c == FullFeatureDeferred)
      && (Carries(t, labels, EvidenceOnly) <==> c == EvidenceOnly)
      && (Carries(t, labels, Stale) <==> c == Stale)
  {
    hide Carries;
    if SolelyClassified(t, labels, c) {
      assert c != CoreBlocker ==> !Carries(t, labels, CoreBlocker);
      assert c != FullFeatureDeferred ==> !Carries(t, labels, FullFeatureDeferred);
      assert c != EvidenceOnly ==> !Carries(t, labels, EvidenceOnly);
      assert c != Stale ==> !Carries(t, labels, Stale);
    }
  }

  lemma NamesDiffer()
    ensures |{"core-blocker", "full-feature-deferred", "evidence-only", "stale/close after reconciliation"}| == 4
  {
    assert |"core-blocker"| == 12 && |"full-feature-deferred"| == 21 && |"evidence-only"| == 13;
    assert |"stale/close after reconciliation"| == 32;
  }

  // ----- the verdict

  /** The issue does not stand in the way of the release. */
  ghost predicate Clear(t: Context, issue: Json, comments: seq<Json>, preTag: bool, audit: Option<bool>) {
    IsOpen(issue) ==>
      && (Labeled(t, issue, "p1") ==> Solely(t, issue, "full-feature-deferred"))
      && (Labeled(t, issue, "p0") ==>
            || Deferred(t, issue, comments)
            || (Get(issue, "number") == Int(71) && Solely(t, issue, "core-blocker") && preTag && audit == Some(true)))
  }

  lemma ClearExactly(t: Context, row: Json, comments: seq<Json>, preTag: bool, audit: Option<bool>)
    requires IssueValid(t.strip, row) && AllCommentsValid(t.strip, comments)
    ensures Acceptable(t, IssueOf(t.strip, row), CommentRows(t.strip, comments), preTag, audit)
        <==> Clear(t, row, comments, preTag, audit)
  {
    LabelsExactly(t, row, "p0");
    LabelsExactly(t, row, "p1");
    SolelyExactly(t, row, CoreBlocker);
    SolelyExactly(t, row, FullFeatureDeferred);
    ConfirmedExactly(t, comments, Get(row, "number").n);
    hide Labels, Labeled, SolelyClassified, Solely, Confirmed, Confirming, CommentRows, AllCommentsValid;
  }

  /** The verdict is ok exactly when no issue row stands in the way. */
  lemma VerdictSpelledOut(t: Context, issueRows: seq<Json>, commentRows: seq<Json>, preTag: bool, audit: Option<bool>)
    requires RowsAccepted(t, issueRows, commentRows)
    ensures (var issues, comments := IssuesOf(t.strip, issueRows), CommentRows(t.strip, commentRows);
             forall issue :: issue in issues ==> Acceptable(t, issue, comments, preTag, audit))
        <==> forall row :: row in issueRows ==> Clear(t, row, commentRows, preTag, audit)
  {
    var issues, comments := IssuesOf(t.strip, issueRows), CommentRows(t.strip, commentRows);
    hide IssueOf, IssueValid, CommentRows, Acceptable, Clear, CommentsValid, NumbersValid, AllCommentsValid;
    forall i | 0 <= i < |issueRows|
      ensures Acceptable(t, issues[i], comments, preTag, audit) <==> Clear(t, issueRows[i], commentRows, preTag, audit)
    {
      ClearExactly(t, issueRows[i], commentRows, preTag, audit);
    }
    if forall issue :: issue in issues ==> Acceptable(t, issue, comments, preTag, audit) {
      forall row | row in issueRows ensures Clear(t, row, commentRows, preTag, audit) {
        var i :| 0 <= i < |issueRows| && issueRows[i] == row;
        assert issues[i] in issues;
      }
    }
    if forall row :: row in issueRows ==> Clear(t, row, commentRows, preTag, audit) {
      forall issue | issue in issues ensures Acceptable(t, issue, comments, preTag, audit) {
        var i :| 0 <= i < |issues| && issues[i] == issue;
        assert issueRows[i] in issueRows;
      }
    }
  }

  // ----- the rows that are judged at all

  predicate IssueRow(strip: string -> string, row: Json) {
    && row.Obj? && Get(row, "number").Int? && Get(row, "number").n > 0
    && (Get(row, "state") == Str("open") || Get(row, "state") == Str("closed"))
    && Get(row, "repository_url") == Str("https://api.github.com/repos/n30nex/SIGUI")
    && Get(row, "title").Str? && (Get(row, "body").Str? || Get(row, "body").Null?)
    && Get(row, "labels").Arr?
    && (forall l :: l in Get(row, "labels").items ==> l.Obj? && Get(l, "name").Str? && strip(Get(l, "name").s) != "")
    && Get(row, "comments").Int? && Get(row, "comments").n >= 0
  }

  predicate CommentRow(strip: string -> string, row: Json) {
    && row.Obj? && Get(row, "body").Str? && Get(row, "created_at").Str? && Get(row, "updated_at").Str?
    && Get(row, "author_association").Str?
    && (|| Get(row, "user").Null?
        || (Get(row, "user").Obj? && Get(Get(row, "user"), "login").Str? && strip(Get(Get(row, "user"), "login").s) != ""))
  }

  /** The comment's address is that of issue `n`. */
  predicate OnIssue(comment: Json, n: int) {
    n > 0 && Get(comment, "issue_url") == Str("https://api.github.com/repos/n30nex/SIGUI/issues/" + Dec(n))
  }

  function CommentsOn(comments: seq<Json>, n: int): set<nat> {
    set i: nat | i < |comments| && OnIssue(comments[i], n)
  }

  lemma IssueRowExactly(strip: string -> string, row: Json)
    ensures IssueValid(strip, row) <==> IssueRow(strip, row)
  {
    hide Get;
  }

  lemma CommentRowExactly(strip: string -> string, row: Json)
    ensures CommentValid(strip, row) <==> CommentRow(strip, row) && exists n :: OnIssue(row, n)
  {
    hide Get, Dec;
    if CommentValid(strip, row) {
      NumberedExactly(row, IssueNumber(row).value);
      assert OnIssue(row, IssueNumber(row).value);
    }
    if n :| OnIssue(row, n) {
      NumberedExactly(row, n);
    }
    hide IssueNumber;
  }

  lemma {:induction false} CommentCount(strip: string -> string, rows: seq<Json>, n: int)
    requires AllCommentsValid(strip, rows)
    ensures |CommentsOf(CommentRows(strip, rows), n)| == |CommentsOn(rows, n)|
  {
    hide CommentValid, OnIssue, CommentOf;
    if rows == [] {
      assert CommentsOn(rows, n) == {};
    } else {
      var init, k := rows[..|rows| - 1], |rows| - 1;
      CommentCount(strip, init, n);
      var comments := CommentRows(strip, rows);
      assert comments[..k] == CommentRows(strip, init);
      SameIssue(strip, rows[k], n);
      assert forall i: nat :: i < k ==> init[i] == rows[i];
      assert CommentsOn(rows, n) == CommentsOn(init, n) + if OnIssue(rows[k], n) then {k as nat} else {};
    }
  }

  lemma SameIssue(strip: string -> string, row: Json, n: int)
    requires CommentValid(strip, row)
    ensures CommentOf(strip, row).issue == n <==> OnIssue(row, n)
  {
    NumberedExactly(row, n);
    hide IssueNumber, Dec;
  }

  lemma IssueRowsExactly(strip: string -> string, rows: seq<Json>)
    ensures AllIssuesValid(strip, rows) <==> forall row :: row in rows ==> IssueRow(strip, row)
  {
    forall row ensures IssueValid(strip, row) <==> IssueRow(strip, row) {
      IssueRowExactly(strip, row);
    }
    hide IssueValid, IssueRow;
    if forall row :: row in rows ==> IssueRow(strip, row) {
      assert forall i :: 0 <= i < |rows| ==> rows[i] in rows;
    }
  }

  lemma NumbersExactly(strip: string -> string, rows: seq<Json>)
    requires AllIssuesValid(strip, rows)
    ensures NumbersValid(IssuesOf(strip, rows)) <==>
      forall i, j :: 0 <= i < j < |rows| ==> Get(rows[i], "number") != Get(rows[j], "number")
  {
    var issues := IssuesOf(strip, rows);
    forall i | 0 <= i < |rows| ensures Get(rows[i], "number") == Int(issues[i].number) && issues[i].number > 0 {
      assert IssueValid(strip, rows[i]);
    }
    hide IssueValid, IssuesOf, Get;
    if NumbersValid(issues) {
      forall i, j | 0 <= i < j < |rows| ensures Get(rows[i], "number") != Get(rows[j], "number") {
        assert issues[i].number != issues[j].number;
      }
    }
    if forall i, j :: 0 <= i < j < |rows| ==> Get(rows[i], "number") != Get(rows[j], "number") {
      forall i, j | 0 <= i < j < |issues| ensures issues[i].number != issues[j].number {
        assert Get(rows[i], "number") != Get(rows[j], "number");
      }
    }
  }

  /** The comment is on one of these issues. */
  ghost predicate OnKnown(comment: Json, issues: seq<Json>) {
    exists row :: row in issues && Get(row, "number").Int? && OnIssue(comment, Get(row, "number").n)
  }

  /** The issue counts its comments. */
  ghost predicate Counted(issue: Json, comments: seq<Json>) {
    && Get(issue, "number").Int?
    && Get(issue, "comments") == Int(|CommentsOn(comments, Get(issue, "number").n)|)
  }

  lemma CommentRowsExactly(strip: string -> string, rows: seq<Json>)
    ensures AllCommentsValid(strip, rows) <==> forall c :: c in rows ==> CommentRow(strip, c) && exists n :: OnIssue(c, n)
  {
    forall c ensures CommentValid(strip, c) <==> CommentRow(strip, c) && exists n :: OnIssue(c, n) {
      CommentRowExactly(strip, c);
    }
    hide CommentValid, CommentRow, OnIssue;
    if forall c :: c in rows ==> CommentRow(strip, c) && exists n :: OnIssue(c, n) {
      assert forall i :: 0 <= i < |rows| ==> rows[i] in rows;
    }
  }

  lemma KnownExactly(strip: string -> string, issueRows: seq<Json>, comment: Json)
    requires AllIssuesValid(strip, issueRows) && CommentValid(strip, comment)
    ensures CommentOf(strip, comment).issue in Numbers(IssuesOf(strip, issueRows)) <==> OnKnown(comment, issueRows)
  {
    var issues := IssuesOf(strip, issueRows);
    forall i | 0 <= i < |issueRows| ensures Get(issueRows[i], "number") == Int(issues[i].number) {
      assert IssueValid(strip, issueRows[i]);
    }
    forall n: int ensures CommentOf(strip, comment).issue == n <==> OnIssue(comment, n) {
      SameIssue(strip, comment, n);
    }
    hide IssueValid, IssuesOf, Get, OnIssue, CommentOf, CommentValid;
    if issue :| issue in issues && issue.number == CommentOf(strip, comment).issue {
      var i :| 0 <= i < |issues| && issues[i] == issue;
      assert issueRows[i] in issueRows;
    }
    if OnKnown(comment, issueRows) {
      var row :| row in issueRows && Get(row, "number").Int? && OnIssue(comment, Get(row, "number").n);
      var i :| 0 <= i < |issueRows| && issueRows[i] == row;
      assert issues[i] in issues;
    }
  }

  lemma ReconciledExactly(strip: string -> string, issueRows: seq<Json>, commentRows: seq<Json>)
    requires AllIssuesValid(strip, issueRows) && AllCommentsValid(strip, commentRows)
    ensures CommentsValid(IssuesOf(strip, issueRows), CommentRows(strip, commentRows)) <==>
      && (forall c :: c in commentRows ==> OnKnown(c, issueRows))
      && (forall row :: row in issueRows ==> Counted(row, commentRows))
  {
    var issues, comments := IssuesOf(strip, issueRows), CommentRows(strip, commentRows);
    forall i | 0 <= i < |issueRows|
      ensures issues[i].comments == |CommentsOf(comments, issues[i].number)| <==> Counted(issueRows[i], commentRows)
    {
      assert IssueValid(strip, issueRows[i]);
      CommentCount(strip, commentRows, issues[i].number);
      hide CommentsOf, CommentsOn, CommentRows;
    }
    forall k | 0 <= k < |commentRows| ensures comments[k].issue in Numbers(issues) <==> OnKnown(commentRows[k], issueRows) {
      KnownExactly(strip, issueRows, commentRows[k]);
      hide IssuesOf, Numbers, CommentOf, OnKnown;
    }
    hide IssuesOf, CommentRows, Numbers, CommentsOf, OnKnown, Counted;
    EachIn(commentRows, c => OnKnown(c, issueRows));
    EachIn(issueRows, row => Counted(row, commentRows));
  }

  lemma EachIn(rows: seq<Json>, p: Json -> bool)
    ensures (forall row :: row in rows ==> p(row)) <==> forall i :: 0 <= i < |rows| ==> p(rows[i])
  {
    if forall row :: row in rows ==> p(row) {
      assert forall i :: 0 <= i < |rows| ==> rows[i] in rows;
    }
  }

  /** Exactly which rows are analysed; all others raise. */
  lemma AnalysedExactly(t: Context, issueRows: seq<Json>, commentRows: seq<Json>)
    ensures RowsAccepted(t, issueRows, commentRows) <==>
      && (forall row :: row in issueRows ==> IssueRow(t.strip, row) && Counted(row, commentRows))
      && (forall i, j :: 0 <= i < j < |issueRows| ==> Get(issueRows[i], "number") != Get(issueRows[j], "number"))
      && (forall c :: c in commentRows ==> CommentRow(t.strip, c) && OnKnown(c, issueRows))
  {
    IssueRowsExactly(t.strip, issueRows);
    CommentRowsExactly(t.strip, commentRows);
    forall c | OnKnown(c, issueRows) ensures exists n :: OnIssue(c, n) {
      var row :| row in issueRows && Get(row, "number").Int? && OnIssue(c, Get(row, "number").n);
    }
    hide AllIssuesValid, AllCommentsValid, IssuesOf, CommentRows, NumbersValid, CommentsValid, IssueRow, Counted, CommentRow,
      OnKnown, OnIssue, Get;
    if AllIssuesValid(t.strip, issueRows) && AllCommentsValid(t.strip, commentRows) {
      NumbersExactly(t.strip, issueRows);
      ReconciledExactly(t.strip, issueRows, commentRows);
    }
  }

  // ----- what is recorded of an issue

  /** The issue bears none of the four classification labels. */
  ghost predicate Unlabeled(t: Context, issue: Json) {
    && !Labeled(t, issue, t.fold("core-blocker")) && !Labeled(t, issue, t.fold("full-feature-deferred"))
    && !Labeled(t, issue, t.fold("evidence-only")) && !Labeled(t, issue, t.fold("stale/close after reconciliation"))
  }

  /** It bears exactly one of them. */
  ghost predicate Classified(t: Context, issue: Json) {
    || Solely(t, issue, "core-blocker") || Solely(t, issue, "full-feature-deferred")
    || Solely(t, issue, "evidence-only") || Solely(t, issue, "stale/close after reconciliation")
  }

  predicate NeedsComment(issue: Json) {
    Get(issue, "number") in {Int(8), Int(63), Int(67), Int(68), Int(69), Int(74), Int(76)}
  }

  /** The reason recorded when the labels of an open P0 or P1 do not classify it. */
  ghost predicate ReasonFits(t: Context, issue: Json, comments: seq<Json>, reason: Option<Reason>) {
    var open, p0, p1 := Get(issue, "state") == Str("open"), Labeled(t, issue, "p0"), Labeled(t, issue, "p1");
    match reason
    case Some(MissingP0) => open && p0 && Unlabeled(t, issue)
    case Some(MissingP1) => open && !p0 && p1 && Unlabeled(t, issue)
    case Some(MultipleP0) => open && p0 && !Unlabeled(t, issue) && !Classified(t, issue)
    case Some(MultipleP1) => open && !p0 && p1 && !Unlabeled(t, issue) && !Classified(t, issue)
    case Some(MixedCommentMissing) =>
      open && p0 && Solely(t, issue, "full-feature-deferred") && !Deferred(t, issue, comments)
    case None =>
      open && (p0 || p1) ==>
        Classified(t, issue) && (p0 && Solely(t, issue, "full-feature-deferred") ==> Deferred(t, issue, comments))
  }

  ghost predicate TransitionFits(t: Context, issue: Json, comments: seq<Json>, transition: Option<Transition>) {
    var mixed := Get(issue, "state") == Str("open") && Labeled(t, issue, "p0") && NeedsComment(issue);
    match transition
    case None => !mixed
    case Some(Required) => mixed && Solely(t, issue, "evidence-only")
    case Some(Applied) => mixed && Deferred(t, issue, comments)
    case Some(InvalidMissingComment) => mixed && Solely(t, issue, "full-feature-deferred") && !Deferred(t, issue, comments)
    case Some(NotReady) => mixed && !Solely(t, issue, "evidence-only") && !Solely(t, issue, "full-feature-deferred")
  }

  ghost predicate ClassFits(t: Context, issue: Json, c: Option<Class>) {
    match c
    case None => !Classified(t, issue)
    case Some(CoreBlocker) => Solely(t, issue, "core-blocker")
    case Some(FullFeatureDeferred) => Solely(t, issue, "full-feature-deferred")
    case Some(EvidenceOnly) => Solely(t, issue, "evidence-only")
    case Some(Stale) => Solely(t, issue, "stale/close after reconciliation")
  }

  lemma ClassExactly(t: Context, row: Json)
    requires IssueValid(t.strip, row)
    ensures var matched := Matched(t, Labels(t, IssueOf(t.strip, row)), |CLASSES|);
      && ClassFits(t, row, Classification(matched)) && (matched == [] <==> Unlabeled(t, row))
      && (|matched| > 1 <==> !Unlabeled(t, row) && !Classified(t, row))
  {
    var labels := Labels(t, IssueOf(t.strip, row));
    LabelsExactly(t, row, t.fold("core-blocker"));
    LabelsExactly(t, row, t.fold("full-feature-deferred"));
    LabelsExactly(t, row, t.fold("evidence-only"));
    LabelsExactly(t, row, t.fold("stale/close after reconciliation"));
    MatchedList(t, labels);
    hide Labels, Labeled, IssueOf, IssueValid, Matched;
    NamesDiffer();
  }

  /** At most one classification label is the only one. */
  lemma SolelyOne(t: Context, issue: Json)
    ensures Solely(t, issue, "full-feature-deferred") ==>
      !Solely(t, issue, "core-blocker") && !Solely(t, issue, "evidence-only")
      && !Solely(t, issue, "stale/close after reconciliation")
    ensures Solely(t, issue, "evidence-only") ==>
      !Solely(t, issue, "core-blocker") && !Solely(t, issue, "stale/close after reconciliation")
    ensures Unlabeled(t, issue) ==> !Classified(t, issue)
  {
    NamesDiffer();
    hide Labeled;
  }

  /** What the judgement is computed from, read off the rows. */
  lemma InputsRead(t: Context, row: Json, comments: seq<Json>)
    requires IssueValid(t.strip, row) && AllCommentsValid(t.strip, comments)
    ensures var issue := IssueOf(t.strip, row);
      && Int(issue.number) == Get(row, "number") && (issue.open <==> Get(row, "state") == Str("open"))
      && ("p0" in Labels(t, issue) <==> Labeled(t, row, "p0")) && ("p1" in Labels(t, issue) <==> Labeled(t, row, "p1"))
      && (issue.number in MIXED_ISSUES <==> NeedsComment(row))
      && (Deferred(t, row, comments) <==>
          && Solely(t, row, "full-feature-deferred")
          && (NeedsComment(row) ==> Confirmed(t, CommentsOf(CommentRows(t.strip, comments), issue.number))))
  {
    LabelsExactly(t, row, "p0");
    LabelsExactly(t, row, "p1");
    ConfirmedExactly(t, comments, Get(row, "number").n);
    hide Labels, Labeled, Solely, Confirmed, Confirming, CommentRows, AllCommentsValid, CommentsOf;
  }

  lemma JudgeError(t: Context, issue: Issue, comments: seq<Comment>)
    ensures var labels := Labels(t, issue);
      var m, p0, p1 := Matched(t, labels, |CLASSES|), "p0" in labels, "p1" in labels;
      var missing := Classification(m) == Some(FullFeatureDeferred) && issue.number in MIXED_ISSUES && !Confirmed(t, comments);
      match Judge(t, issue, comments).error
      case Some(MissingP0) => issue.open && p0 && m == []
      case Some(MissingP1) => issue.open && !p0 && p1 && m == []
      case Some(MultipleP0) => issue.open && p0 && |m| > 1
      case Some(MultipleP1) => issue.open && !p0 && p1 && |m| > 1
      case Some(MixedCommentMissing) => issue.open && p0 && missing
      case None => issue.open && (p0 || p1) ==> |m| == 1 && !(p0 && missing)
  {
    hide Labels, Matched, Confirmed;
  }

  /** The reason recorded is the one the rows give. */
  lemma ReasonExactly(t: Context, row: Json, comments: seq<Json>)
    requires IssueValid(t.strip, row) && AllCommentsValid(t.strip, comments)
    ensures ReasonFits(t, row, comments, JudgedIn(t, IssueOf(t.strip, row), CommentRows(t.strip, comments)).error)
  {
    var issue := IssueOf(t.strip, row);
    InputsRead(t, row, comments);
    ClassExactly(t, row);
    JudgeError(t, issue, CommentsOf(CommentRows(t.strip, comments), issue.number));
    SolelyOne(t, row);
    assert Classification(Matched(t, Labels(t, issue), |CLASSES|)) == Some(FullFeatureDeferred)
        <==> Solely(t, row, "full-feature-deferred") by {
      hide Judge, Labels, Labeled, Matched, Solely, Unlabeled;
    }
    hide Judge, Labels, Labeled, Matched, Confirmed, Confirming, CommentRows, AllCommentsValid, CommentsOf, IssueOf, IssueValid,
      Get, Solely, Unlabeled, NeedsComment, Deferred, Classified, ClassFits, Classification;
  }

  /** The transition recorded is the one the rows give. */
  lemma TransitionExactly(t: Context, row: Json, comments: seq<Json>)
    requires IssueValid(t.strip, row) && AllCommentsValid(t.strip, comments)
    ensures TransitionFits(
      t, row, comments, JudgedIn(t, IssueOf(t.strip, row), CommentRows(t.strip, comments)).transition)
  {
    InputsRead(t, row, comments);
    ClassExactly(t, row);
    SolelyOne(t, row);
    hide Labels, Labeled, Matched, Confirmed, Confirming, CommentRows, AllCommentsValid, CommentsOf, IssueOf, IssueValid, Get,
      Solely, Unlabeled, NeedsComment, Deferred;
  }

  /** What is recorded of an issue is what the rows say. */
  lemma JudgedExactly(t: Context, row: Json, comments: seq<Json>)
    requires IssueValid(t.strip, row) && AllCommentsValid(t.strip, comments)
    ensures var j := JudgedIn(t, IssueOf(t.strip, row), CommentRows(t.strip, comments));
      var open, p0, p1 := Get(row, "state") == Str("open"), Labeled(t, row, "p0"), Labeled(t, row, "p1");
      && Int(j.number) == Get(row, "number") && (j.open <==> open) && (j.p0 <==> p0) && (j.p1 <==> p1)
      && ClassFits(t, row, j.classification)
      && (j.blocking <==> open && p0 && !Deferred(t, row, comments))
      && (j.critical <==> open && p1 && Classified(t, row) && !Solely(t, row, "full-feature-deferred"))
  {
    InputsRead(t, row, comments);
    ClassExactly(t, row);
    SolelyOne(t, row);
    hide Labels, Labeled, Matched, Confirmed, Confirming, CommentRows, AllCommentsValid, CommentsOf, IssueOf, IssueValid, Get,
      Solely, Unlabeled, NeedsComment, Deferred;
  }

  // ----- the lists of an analysis

  /** Only one reason fits. */
  lemma ReasonUnique(t: Context, issue: Json, comments: seq<Json>, a: Option<Reason>, b: Option<Reason>)
    requires ReasonFits(t, issue, comments, a) && ReasonFits(t, issue, comments, b)
    ensures a == b
  {
    SolelyOne(t, issue);
    hide Labeled, Solely, Deferred, Unlabeled;
  }

  lemma {:induction false} ListsMean(t: Context, issues: seq<Issue>, comments: seq<Comment>, n: nat, x: int, r: Reason)
    requires n <= |issues|
    ensures var a := Analyzed(t, issues, comments, n);
      && (x in a.critical <==>
          exists i :: 0 <= i < n && !issues[i].pullRequest && issues[i].number == x && JudgedIn(t, issues[i], comments).critical)
      && ((x, r) in a.errors <==>
          exists i :: 0 <= i < n && !issues[i].pullRequest && issues[i].number == x
                      && JudgedIn(t, issues[i], comments).error == Some(r))
  {
    hide Judge;
    if n > 0 {
      ListsMean(t, issues, comments, n - 1, x, r);
      JudgeNumber(t, issues[n - 1], CommentsOf(comments, issues[n - 1].number));
    }
  }

  /** The issue row numbered `x` that is no pull request. */
  predicate Numbered(row: Json, x: int) {
    Get(row, "number") == Int(x) && !Get(row, "pull_request").Obj?
  }

  /** Some issue of the sorted list is so exactly when some row is. */
  lemma InSomeRow(t: Context, rows: seq<Json>, p: Issue -> bool, q: Json -> bool)
    requires AllIssuesValid(t.strip, rows) && NumbersValid(IssuesOf(t.strip, rows))
    requires forall row :: IssueValid(t.strip, row) ==> (p(IssueOf(t.strip, row)) <==> q(row))
    ensures var sorted := Sort(IssuesOf(t.strip, rows));
      (exists k :: 0 <= k < |sorted| && p(sorted[k])) <==> exists row :: row in rows && q(row)
  {
    var issues := IssuesOf(t.strip, rows);
    var sorted := Sort(issues);
    SortKeeps(issues);
    hide IssueOf, IssueValid, Sort, NumbersValid;
    if k :| 0 <= k < |sorted| && p(sorted[k]) {
      assert sorted[k] in issues;
      var i :| 0 <= i < |issues| && issues[i] == sorted[k];
      assert rows[i] in rows && q(rows[i]);
    }
    if row :| row in rows && q(row) {
      var i :| 0 <= i < |rows| && rows[i] == row;
      assert issues[i] in sorted;
      var k :| 0 <= k < |sorted| && sorted[k] == issues[i];
      assert p(sorted[k]);
    }
  }

  ghost predicate CriticalRow(t: Context, row: Json) {
    IsOpen(row) && Labeled(t, row, "p1") && Classified(t, row) && !Solely(t, row, "full-feature-deferred")
  }

  ghost predicate BlockingRow(t: Context, row: Json, comments: seq<Json>) {
    IsOpen(row) && Labeled(t, row, "p0") && !Deferred(t, row, comments)
  }

  /** Exactly which issues an analysis lists as critical. */
  lemma CriticalExactly(t: Context, issueRows: seq<Json>, commentRows: seq<Json>, x: int)
    requires RowsAccepted(t, issueRows, commentRows)
    ensures var sorted, comments := Sort(IssuesOf(t.strip, issueRows)), CommentRows(t.strip, commentRows);
      x in Analyzed(t, sorted, comments, |sorted|).critical <==>
        exists row :: row in issueRows && Numbered(row, x) && CriticalRow(t, row)
  {
    var sorted, comments := Sort(IssuesOf(t.strip, issueRows)), CommentRows(t.strip, commentRows);
    ListsMean(t, sorted, comments, |sorted|, x, MissingP0);
    var p := (issue: Issue) => !issue.pullRequest && issue.number == x && JudgedIn(t, issue, comments).critical;
    forall row | IssueValid(t.strip, row)
      ensures p(IssueOf(t.strip, row)) <==> Numbered(row, x) && CriticalRow(t, row)
    {
      JudgedExactly(t, row, commentRows);
      hide JudgedIn, Labeled, Solely, Classified, CommentRows, AllCommentsValid, Deferred, ClassFits;
    }
    hide Analyzed, Sort, IssueOf, IssueValid, CommentRows, IssuesOf, JudgedIn, CriticalRow, Numbered, AllCommentsValid,
      CommentsValid, NumbersValid;
    InSomeRow(t, issueRows, p, row => Numbered(row, x) && CriticalRow(t, row));
  }

  /** Exactly which issues an analysis lists as wrongly classified, and for which reason. */
  lemma ErrorsExactly(t: Context, issueRows: seq<Json>, commentRows: seq<Json>, x: int, r: Reason)
    requires RowsAccepted(t, issueRows, commentRows)
    ensures var sorted, comments := Sort(IssuesOf(t.strip, issueRows)), CommentRows(t.strip, commentRows);
      (x, r) in Analyzed(t, sorted, comments, |sorted|).errors <==>
        exists row :: row in issueRows && Numbered(row, x) && ReasonFits(t, row, commentRows, Some(r))
  {
    var sorted, comments := Sort(IssuesOf(t.strip, issueRows)), CommentRows(t.strip, commentRows);
    ListsMean(t, sorted, comments, |sorted|, x, r);
    var p := (issue: Issue) => !issue.pullRequest && issue.number == x && JudgedIn(t, issue, comments).error == Some(r);
    forall row | IssueValid(t.strip, row)
      ensures p(IssueOf(t.strip, row)) <==> Numbered(row, x) && ReasonFits(t, row, commentRows, Some(r))
    {
      ReasonExactly(t, row, commentRows);
      if ReasonFits(t, row, commentRows, Some(r)) {
        ReasonUnique(t, row, commentRows, JudgedIn(t, IssueOf(t.strip, row), comments).error, Some(r));
      }
      hide JudgedIn, ReasonFits, CommentRows, AllCommentsValid;
    }
    hide Analyzed, Sort, IssueOf, IssueValid, CommentRows, IssuesOf, JudgedIn, ReasonFits, Numbered, AllCommentsValid,
      CommentsValid, NumbersValid;
    InSomeRow(t, issueRows, p, row => Numbered(row, x) && ReasonFits(t, row, commentRows, Some(r)));
  }

  /** Exactly which issues an analysis lists as blocking. */
  lemma BlockingExactly(t: Context, issueRows: seq<Json>, commentRows: seq<Json>, x: int)
    requires RowsAccepted(t, issueRows, commentRows)
    ensures var sorted, comments := Sort(IssuesOf(t.strip, issueRows)), CommentRows(t.strip, commentRows);
      x in Analyzed(t, sorted, comments, |sorted|).blocking <==>
        exists row :: row in issueRows && Numbered(row, x) && BlockingRow(t, row, commentRows)
  {
    var sorted, comments := Sort(IssuesOf(t.strip, issueRows)), CommentRows(t.strip, commentRows);
    BlockingMeans(t, sorted, comments, |sorted|, x);
    var p := (issue: Issue) => Lists(t, issue, comments, x, true);
    forall row | IssueValid(t.strip, row)
      ensures p(IssueOf(t.strip, row)) <==> Numbered(row, x) && BlockingRow(t, row, commentRows)
    {
      JudgedExactly(t, row, commentRows);
      hide JudgedIn, Labeled, Solely, Classified, CommentRows, AllCommentsValid, Deferred, ClassFits;
    }
    hide Analyzed, Sort, IssueOf, IssueValid, CommentRows, IssuesOf, JudgedIn, Lists, BlockingRow, Numbered, AllCommentsValid,
      CommentsValid, NumbersValid;
    InSomeRow(t, issueRows, p, row => Numbered(row, x) && BlockingRow(t, row, commentRows));
  }
}
