/** `analyze_issues` and the verdict of a defect snapshot: which open defects block the release. */
module DefectVerdict {
  import opened DefectRows
  import opened JsonModel
  import opened Results
  import opened Text
  import Sorting

  datatype Class = CoreBlocker | FullFeatureDeferred | EvidenceOnly | Stale

  /** `str.casefold` and `str.strip`, whether a body names a run or an attempt as the two regular
      expressions demand, and the candidate: its commit, its workflow run and the run's attempt. */
  datatype Context = Context(
    fold: string -> string, strip: string -> string, namesRun: (string, string) -> bool, namesAttempt: (nat, string) -> bool,
    commit: string, runId: string, attempt: nat)

  const CLASSES := [CoreBlocker, FullFeatureDeferred, EvidenceOnly, Stale]
  const MIXED_ISSUES := {8, 63, 67, 68, 69, 74, 76}
  const PRIVILEGED := {"OWNER", "MEMBER", "COLLABORATOR"}
  const PENDING_TAG_ISSUE := 71
  const MIXED_DEFERRAL_MARKER := "CORE_1_0_SCOPE_COMPLETE"

  function LabelOf(c: Class): string {
    match c
    case CoreBlocker => "core-blocker"
    case FullFeatureDeferred => "full-feature-deferred"
    case EvidenceOnly => "evidence-only"
    case Stale => "stale/close after reconciliation"
  }

  /** The case-folded labels of an issue. */
  function Labels(t: Context, issue: Issue): set<string> {
    set l | l in issue.labels :: t.fold(t.strip(l))
  }

  /** The classification labels among them, in their fixed order. */
  function Matched(t: Context, labels: set<string>, n: nat): seq<Class>
    requires n <= |CLASSES|
  {
    if n == 0 then []
    else Matched(t, labels, n - 1) + if t.fold(LabelOf(CLASSES[n - 1])) in labels then [CLASSES[n - 1]] else []
  }

  predicate Carries(t: Context, labels: set<string>, c: Class) {
    t.fold(LabelOf(c)) in labels
  }

  /** Exactly this classification label is there. */
  ghost predicate SolelyClassified(t: Context, labels: set<string>, c: Class) {
    Carries(t, labels, c) && forall d: Class :: d != c ==> !Carries(t, labels, d)
  }

  function Classification(matched: seq<Class>): Option<Class> {
    if |matched| == 1 then Some(matched[0]) else None
  }

  /** The body carries the marker, the commit of the candidate and the label, and names its run and
      its attempt. */
  predicate Confirms(t: Context, body: string) {
    var lowered := t.fold(body);
    && Contains(lowered, t.fold(MIXED_DEFERRAL_MARKER)) && Contains(lowered, t.commit)
    && Contains(lowered, "full-feature-deferred") && t.namesRun(t.runId, body) && t.namesAttempt(t.attempt, body)
  }

  /** Someone with a privileged association confirms the deferral. */
  predicate Confirmation(t: Context, comment: Comment) {
    comment.association in PRIVILEGED && Confirms(t, comment.body)
  }

  predicate Confirmed(t: Context, comments: seq<Comment>) {
    exists i :: 0 <= i < |comments| && Confirmation(t, comments[i])
  }

  /** `_mixed_deferral_comment`: the last such comment. */
  method MixedDeferralComment(t: Context, comments: seq<Comment>) returns (r: Option<nat>)
    ensures r.Some? <==> Confirmed(t, comments)
    ensures r.Some? ==> r.value < |comments| && Confirmation(t, comments[r.value])
    ensures r.Some? ==> forall k :: r.value < k < |comments| ==> !Confirmation(t, comments[k])
  {
    hide Contains;
    var i: int := |comments|;
    while i > 0
      invariant 0 <= i <= |comments|
      invariant forall k :: i <= k < |comments| ==> !Confirmation(t, comments[k])
    {
      i := i - 1;
      if comments[i].association !in PRIVILEGED {
        continue;
      }
      var body := comments[i].body;
      var lowered := t.fold(body);
      if Contains(lowered, t.fold(MIXED_DEFERRAL_MARKER)) && Contains(lowered, t.commit)
         && Contains(lowered, "full-feature-deferred") && t.namesRun(t.runId, body) && t.namesAttempt(t.attempt, body) {
        return Some(i);
      }
    }
    r := None;
  }

  function CommentsOf(comments: seq<Comment>, number: int): seq<Comment> {
    if comments == [] then []
    else
      CommentsOf(comments[..|comments| - 1], number)
      + if comments[|comments| - 1].issue == number then [comments[|comments| - 1]] else []
  }

  datatype Reason = MissingP0 | MissingP1 | MultipleP0 | MultipleP1 | MixedCommentMissing

  datatype Transition = NotReady | Required | Applied | InvalidMissingComment

  /** What is recorded of one issue. */
  datatype Judged = Judged(
    number: int, open: bool, p0: bool, p1: bool, classification: Option<Class>, error: Option<Reason>,
    transition: Option<Transition>, blocking: bool, critical: bool)

  /** The body of the loop over the issues. */
  function Judge(t: Context, issue: Issue, comments: seq<Comment>): Judged {
    var labels := Labels(t, issue);
    var p0, p1 := "p0" in labels, "p1" in labels;
    var matched := Matched(t, labels, |CLASSES|);
    var classification := Classification(matched);
    var unclassified :=
      if issue.open && (p0 || p1) then
        if matched == [] then Some(if p0 then MissingP0 else MissingP1)
        else if |matched| > 1 then Some(if p0 then MultipleP0 else MultipleP1) else None
      else None;
    var transition :=
      if issue.number in MIXED_ISSUES && issue.open && p0 then
        if classification == Some(EvidenceOnly) then Some(Required)
        else if classification == Some(FullFeatureDeferred) then
          Some(if Confirmed(t, comments) then Applied else InvalidMissingComment)
        else Some(NotReady)
      else None;
    var error := if transition == Some(InvalidMissingComment) then Some(MixedCommentMissing) else unclassified;
    Judged(
      issue.number, issue.open, p0, p1, classification, error, transition,
      issue.open && p0 && (classification != Some(FullFeatureDeferred) || error.Some?),
      issue.open && p1 && classification.Some? && classification != Some(FullFeatureDeferred))
  }

  // ----- what a classification means

  lemma MatchedList(t: Context, labels: set<string>)
    ensures Matched(t, labels, |CLASSES|) ==
      (if Carries(t, labels, CoreBlocker) then [CoreBlocker] else [])
      + (if Carries(t, labels, FullFeatureDeferred) then [FullFeatureDeferred] else [])
      + (if Carries(t, labels, EvidenceOnly) then [EvidenceOnly] else [])
      + (if Carries(t, labels, Stale) then [Stale] else [])
  {
    var m1, m2, m3 := Matched(t, labels, 1), Matched(t, labels, 2), Matched(t, labels, 3);
    assert Matched(t, labels, 0) == [];
    assert m1 == if Carries(t, labels, CoreBlocker) then [CoreBlocker] else [];
    assert m2 == m1 + if Carries(t, labels, FullFeatureDeferred) then [FullFeatureDeferred] else [];
    assert m3 == m2 + if Carries(t, labels, EvidenceOnly) then [EvidenceOnly] else [];
    assert Matched(t, labels, 4) == m3 + if Carries(t, labels, Stale) then [Stale] else [];
    hide LabelOf;
  }

  /** The classification is `c` exactly when `c` is the only classification label. */
  lemma ClassifiedExactly(t: Context, labels: set<string>, c: Class)
    ensures Classification(Matched(t, labels, |CLASSES|)) == Some(c) <==> SolelyClassified(t, labels, c)
  {
    hide Carries;
    MatchedList(t, labels);
    hide Matched;
    if SolelyClassified(t, labels, c) {
      assert c != CoreBlocker ==> !Carries(t, labels, CoreBlocker);
      assert c != FullFeatureDeferred ==> !Carries(t, labels, FullFeatureDeferred);
      assert c != EvidenceOnly ==> !Carries(t, labels, EvidenceOnly);
      assert c != Stale ==> !Carries(t, labels, Stale);
    }
    if Classification(Matched(t, labels, |CLASSES|)) == Some(c) {
      forall d: Class | d != c ensures !Carries(t, labels, d) {
        match d {
          case CoreBlocker =>
          case FullFeatureDeferred =>
          case EvidenceOnly =>
          case Stale =>
        }
      }
    }
  }

  // ----- the rows

  function Numbers(issues: seq<Issue>): set<int> {
    set i | i in issues :: i.number
  }

  ghost predicate CommentsValid(issues: seq<Issue>, comments: seq<Comment>) {
    && (forall i :: 0 <= i < |comments| ==> comments[i].issue in Numbers(issues))
    && (forall i :: 0 <= i < |issues| ==> issues[i].comments == |CommentsOf(comments, issues[i].number)|)
  }

  ghost predicate RowsValid(issues: seq<Issue>, comments: seq<Comment>) {
    NumbersValid(issues) && CommentsValid(issues, comments)
  }

  function Look(byIssue: map<int, seq<Comment>>, n: int): seq<Comment> {
    if n in byIssue then byIssue[n] else []
  }

  lemma CommentsSnoc(comments: seq<Comment>, c: Comment, n: int)
    ensures CommentsOf(comments + [c], n) == CommentsOf(comments, n) + if c.issue == n then [c] else []
  {
    assert (comments + [c])[..|comments|] == comments;
  }

  /** The comments by issue, when they reconcile. */
  method Reconcile(byIssue: map<int, seq<Comment>>, ghost comments: seq<Comment>, issues: seq<Issue>) returns (ok: bool)
    requires forall n: int :: Look(byIssue, n) == CommentsOf(comments, n)
    ensures ok <==> forall i :: 0 <= i < |issues| ==> issues[i].comments == |CommentsOf(comments, issues[i].number)|
  {
    hide CommentsOf;
    for i := 0 to |issues|
      invariant forall k :: 0 <= k < i ==> issues[k].comments == |CommentsOf(comments, issues[k].number)|
    {
      if issues[i].comments != |Look(byIssue, issues[i].number)| {
        return false;
      }
    }
    ok := true;
  }

  /** The loop over the comments: every row is valid and belongs to a known issue. */
  method GroupComments(t: Context, rows: seq<Json>, issues: seq<Issue>)
    returns (r: Option<map<int, seq<Comment>>>, ghost comments: seq<Comment>)
    ensures r.Some? <==>
      AllCommentsValid(t.strip, rows) && forall c :: c in CommentRows(t.strip, rows) ==> c.issue in Numbers(issues)
    ensures r.Some? ==> comments == CommentRows(t.strip, rows) && forall n: int :: Look(r.value, n) == CommentsOf(comments, n)
  {
    NoComments();
    hide CommentsOf, Numbers, CommentValid, CommentOf;
    var byIssue: map<int, seq<Comment>> := map[];
    comments := [];
    for i := 0 to |rows|
      invariant |comments| == i
      invariant forall k :: 0 <= k < i ==> CommentValid(t.strip, rows[k]) && comments[k] == CommentOf(t.strip, rows[k])
      invariant forall k :: 0 <= k < i ==> comments[k].issue in Numbers(issues)
      invariant forall n: int :: Look(byIssue, n) == CommentsOf(comments, n)
    {
      if !CommentValid(t.strip, rows[i]) {
        return None, comments;
      }
      var c := CommentOf(t.strip, rows[i]);
      if c.issue !in Numbers(issues) {
        if AllCommentsValid(t.strip, rows) {
          assert CommentRows(t.strip, rows)[i] == c;
        }
        return None, comments;
      }
      var before := byIssue;
      byIssue := byIssue[c.issue := Look(byIssue, c.issue) + [c]];
      forall n: int ensures Look(byIssue, n) == CommentsOf(comments + [c], n) {
        assert Look(before, n) == CommentsOf(comments, n);
        CommentsSnoc(comments, c, n);
      }
      comments := comments + [c];
    }
    assert comments == CommentRows(t.strip, rows);
    r := Some(byIssue);
  }

  /** `_validate_comment_rows`: the comments by issue, when they are valid and reconcile. */
  method ValidateCommentRows(t: Context, rows: seq<Json>, issues: seq<Issue>)
    returns (r: Option<map<int, seq<Comment>>>, ghost comments: seq<Comment>)
    ensures r.Some? <==> AllCommentsValid(t.strip, rows) && CommentsValid(issues, CommentRows(t.strip, rows))
    ensures r.Some? ==> comments == CommentRows(t.strip, rows) && forall n: int :: Look(r.value, n) == CommentsOf(comments, n)
  {
    hide CommentsOf, Numbers, CommentValid, CommentOf;
    r, comments := GroupComments(t, rows, issues);
    if r.None? {
      return;
    }
    var reconciled := Reconcile(r.value, comments, issues);
    if !reconciled {
      r := None;
    }
  }

  lemma NoComments()
    ensures forall n :: CommentsOf([], n) == []
  {
  }

  // ----- in the order of their numbers

  function Number(issue: Issue): int { issue.number }

  /** `sorted(issues, key=number)` */
  function Sort(issues: seq<Issue>): seq<Issue> {
    Sorting.Sort(Sorting.ByKey(Number), issues)
  }

  ghost predicate Increasing(issues: seq<Issue>) {
    forall i, j :: 0 <= i < j < |issues| ==> issues[i].number < issues[j].number
  }

  /** The sorted issues are the same issues, by growing numbers. */
  lemma SortKeeps(issues: seq<Issue>)
    requires NumbersValid(issues)
    ensures Increasing(Sort(issues)) && forall x :: x in Sort(issues) <==> x in issues
  {
    assert Sorting.Distinct(Number, issues);
    Sorting.SortIncreases(Number, issues);
    Sorting.SortPermutes(Sorting.ByKey(Number), issues);
    var r := Sort(issues);
    forall i, j | 0 <= i < j < |r| ensures r[i].number < r[j].number {
      assert Number(r[i]) < Number(r[j]);
    }
  }

  // ----- the analysis

  datatype Analysis = Analysis(
    issues: seq<Judged>, errors: seq<(int, Reason)>, blocking: seq<int>, critical: seq<int>, deferred: seq<int>)

  function Add(a: Analysis, j: Judged): Analysis {
    Analysis(
      a.issues + [j], a.errors + (if j.error.Some? then [(j.number, j.error.value)] else []),
      a.blocking + (if j.blocking then [j.number] else []), a.critical + (if j.critical then [j.number] else []),
      a.deferred + (if j.open && j.p0 && !j.blocking then [j.number] else []))
  }

  /** The first `n` issues that are not pull requests, judged in order. */
  function Analyzed(t: Context, issues: seq<Issue>, comments: seq<Comment>, n: nat): Analysis
    requires n <= |issues|
  {
    if n == 0 then Analysis([], [], [], [], [])
    else
      var a, issue := Analyzed(t, issues, comments, n - 1), issues[n - 1];
      if issue.pullRequest then a else Add(a, Judge(t, issue, CommentsOf(comments, issue.number)))
  }

  /** The rows `analyze_issues` does not raise on. */
  ghost predicate RowsAccepted(t: Context, issueRows: seq<Json>, commentRows: seq<Json>) {
    && AllIssuesValid(t.strip, issueRows) && AllCommentsValid(t.strip, commentRows)
    && RowsValid(IssuesOf(t.strip, issueRows), CommentRows(t.strip, commentRows))
  }

  /** `analyze_issues`; invalid rows raise. */
  method AnalyzeIssues(t: Context, issueRows: seq<Json>, commentRows: seq<Json>)
    returns (r: Option<Analysis>, ghost issues: seq<Issue>, ghost comments: seq<Comment>)
    ensures r.Some? <==> RowsAccepted(t, issueRows, commentRows)
    ensures r.Some? ==> issues == IssuesOf(t.strip, issueRows) && comments == CommentRows(t.strip, commentRows)
    ensures r.Some? ==> r.value == Analyzed(t, Sort(issues), comments, |Sort(issues)|)
  {
    hide Judge, Sort, NumbersValid, CommentsValid, IssueValid, CommentValid, CommentOf, IssueOf;
    issues, comments := [], [];
    var valid := ValidateIssueRows(t.strip, issueRows);
    if valid.None? {
      return None, issues, comments;
    }
    issues := valid.value;
    var byIssue;
    byIssue, comments := ValidateCommentRows(t, commentRows, valid.value);
    if byIssue.None? {
      return None, issues, comments;
    }
    var sorted := Sort(valid.value);
    var a := Analysis([], [], [], [], []);
    for i := 0 to |sorted|
      invariant a == Analyzed(t, sorted, comments, i)
    {
      var issue := sorted[i];
      if issue.pullRequest {
        continue;
      }
      a := Add(a, Judge(t, issue, Look(byIssue.value, issue.number)));
    }
    r := Some(a);
  }

  /** The judgement of an issue of the snapshot. */
  function JudgedIn(t: Context, issue: Issue, comments: seq<Comment>): Judged {
    Judge(t, issue, CommentsOf(comments, issue.number))
  }

  // What the collected lists say about the issues.

  lemma {:induction false} BlockingMeans(t: Context, issues: seq<Issue>, comments: seq<Comment>, n: nat, x: int)
    requires n <= |issues|
    ensures x in Analyzed(t, issues, comments, n).blocking <==> exists i :: 0 <= i < n && Lists(t, issues[i], comments, x, true)
    ensures x in Analyzed(t, issues, comments, n).deferred <==> exists i :: 0 <= i < n && Lists(t, issues[i], comments, x, false)
  {
    hide Judge;
    if n > 0 {
      BlockingMeans(t, issues, comments, n - 1, x);
      JudgeNumber(t, issues[n - 1], CommentsOf(comments, issues[n - 1].number));
      hide Lists;
      if Lists(t, issues[n - 1], comments, x, true) { assert 0 <= n - 1 < n; }
      if Lists(t, issues[n - 1], comments, x, false) { assert 0 <= n - 1 < n; }
    }
  }

  lemma {:induction false} ErrorsMean(t: Context, issues: seq<Issue>, comments: seq<Comment>, n: nat)
    requires n <= |issues|
    ensures Analyzed(t, issues, comments, n).errors == [] <==>
      forall i :: 0 <= i < n && !issues[i].pullRequest ==> JudgedIn(t, issues[i], comments).error.None?
    ensures Analyzed(t, issues, comments, n).critical == [] <==>
      forall i :: 0 <= i < n && !issues[i].pullRequest ==> !JudgedIn(t, issues[i], comments).critical
  {
    hide Judge;
    if n > 0 {
      ErrorsMean(t, issues, comments, n - 1);
    }
  }

  lemma {:induction false} RecordsMean(t: Context, issues: seq<Issue>, comments: seq<Comment>, n: nat, j: Judged)
    requires n <= |issues|
    ensures j in Analyzed(t, issues, comments, n).issues <==>
      exists i :: 0 <= i < n && !issues[i].pullRequest && j == JudgedIn(t, issues[i], comments)
  {
    hide Judge;
    if n > 0 {
      RecordsMean(t, issues, comments, n - 1, j);
    }
  }

  lemma JudgeNumber(t: Context, issue: Issue, comments: seq<Comment>)
    ensures Judge(t, issue, comments).number == issue.number
  {
    hide Labels, Matched, Confirmed;
  }

  /** The issue puts `x` on the list of blocking, or of deferred, P0s. */
  predicate Lists(t: Context, issue: Issue, comments: seq<Comment>, x: int, blocking: bool) {
    var j := JudgedIn(t, issue, comments);
    !issue.pullRequest && j.number == x && if blocking then j.blocking else j.open && j.p0 && !j.blocking
  }

  // ----- the exception and the verdict

  function Find(records: seq<Judged>, number: int): Option<Judged> {
    if records == [] then None else if records[0].number == number then Some(records[0]) else Find(records[1..], number)
  }

  /** `pending_tag_exception`: issue 71 alone may stay open before the tag. `audit` is the verdict on
      the release audit, if one was given. */
  predicate ExceptionApplies(a: Analysis, preTag: bool, audit: Option<bool>) {
    && preTag && audit == Some(true) && a.errors == [] && a.critical == [] && a.blocking == [PENDING_TAG_ISSUE]
    && var issue := Find(a.issues, PENDING_TAG_ISSUE);
    && issue.Some? && issue.value.open && issue.value.classification == Some(CoreBlocker) && issue.value.p0
  }

  method PendingTagException(a: Analysis, preTag: bool, audit: Option<bool>) returns (applied: bool)
    ensures applied <==> ExceptionApplies(a, preTag, audit)
  {
    applied := false;
    if !preTag {
      return;
    } else if audit.None? {
      return;
    } else if !audit.value {
      return;
    } else if a.errors != [] {
      return;
    } else if a.critical != [] {
      return;
    } else if a.blocking != [PENDING_TAG_ISSUE] {
      return;
    }
    var issue71 := Find(a.issues, PENDING_TAG_ISSUE);
    if issue71.Some? && issue71.value.open && issue71.value.classification == Some(CoreBlocker) && issue71.value.p0 {
      applied := true;
    }
  }

  predicate Ok(a: Analysis, preTag: bool, audit: Option<bool>) {
    a.errors == [] && a.critical == [] && (a.blocking == [] || ExceptionApplies(a, preTag, audit))
  }

  /** An open P0 that may stay open: deferred, with a comment where one is needed, or issue 71. */
  ghost predicate MayStayOpen(t: Context, issue: Issue, comments: seq<Comment>, preTag: bool, audit: Option<bool>) {
    var labels := Labels(t, issue);
    if SolelyClassified(t, labels, FullFeatureDeferred)
    then issue.number in MIXED_ISSUES ==> Confirmed(t, CommentsOf(comments, issue.number))
    else
      && issue.number == PENDING_TAG_ISSUE && SolelyClassified(t, labels, CoreBlocker)
      && preTag && audit == Some(true)
  }

  /** An issue that does not stand in the way of the release. */
  ghost predicate Acceptable(t: Context, issue: Issue, comments: seq<Comment>, preTag: bool, audit: Option<bool>) {
    var labels := Labels(t, issue);
    !issue.pullRequest && issue.open ==>
      && ("p1" in labels ==> SolelyClassified(t, labels, FullFeatureDeferred))
      && ("p0" in labels ==> MayStayOpen(t, issue, comments, preTag, audit))
  }

  /** The same, read off the record of the issue. */
  predicate Cleared(j: Judged, preTag: bool, audit: Option<bool>) {
    && j.error.None? && !j.critical
    && (j.blocking ==>
          && j.number == PENDING_TAG_ISSUE && j.open && j.p0 && j.classification == Some(CoreBlocker)
          && preTag && audit == Some(true))
  }

  lemma ClearedExactly(t: Context, issue: Issue, comments: seq<Comment>, preTag: bool, audit: Option<bool>)
    requires !issue.pullRequest
    ensures Cleared(JudgedIn(t, issue, comments), preTag, audit) <==> Acceptable(t, issue, comments, preTag, audit)
  {
    hide Labels, Matched, Confirmed, SolelyClassified, CommentsOf;
    var labels := Labels(t, issue);
    ClassifiedExactly(t, labels, FullFeatureDeferred);
    ClassifiedExactly(t, labels, CoreBlocker);
  }

  ghost predicate AllCleared(t: Context, issues: seq<Issue>, comments: seq<Comment>, preTag: bool, audit: Option<bool>) {
    forall i :: 0 <= i < |issues| && !issues[i].pullRequest ==> Cleared(JudgedIn(t, issues[i], comments), preTag, audit)
  }

  ghost predicate Grows(q: seq<int>, top: int) {
    (forall i, j :: 0 <= i < j < |q| ==> q[i] < q[j]) && forall i :: 0 <= i < |q| ==> q[i] <= top
  }

  ghost predicate RecordsGrow(q: seq<Judged>, top: int) {
    (forall i, j :: 0 <= i < j < |q| ==> q[i].number < q[j].number) && forall i :: 0 <= i < |q| ==> q[i].number <= top
  }

  ghost function Top(issues: seq<Issue>, n: nat): int
    requires n <= |issues|
  {
    if n > 0 then issues[n - 1].number else if issues == [] then 0 else issues[0].number - 1
  }

  /** Numbers grow through the lists, so nothing is listed twice. */
  lemma {:induction false} ListsGrow(t: Context, issues: seq<Issue>, comments: seq<Comment>, n: nat)
    requires n <= |issues| && Increasing(issues)
    ensures var a := Analyzed(t, issues, comments, n);
      Grows(a.blocking, Top(issues, n)) && Grows(a.deferred, Top(issues, n)) && RecordsGrow(a.issues, Top(issues, n))
  {
    hide Judge;
    if n > 0 {
      ListsGrow(t, issues, comments, n - 1);
      var issue, a := issues[n - 1], Analyzed(t, issues, comments, n - 1);
      JudgeNumber(t, issue, CommentsOf(comments, issue.number));
      assert Top(issues, n - 1) < Top(issues, n);
      GrowsNext(a.blocking, Top(issues, n - 1), issue.number);
      GrowsNext(a.deferred, Top(issues, n - 1), issue.number);
      RecordsGrowNext(a.issues, Top(issues, n - 1), Judge(t, issue, CommentsOf(comments, issue.number)));
      hide Grows, RecordsGrow, Increasing;
    }
  }

  lemma GrowsNext(q: seq<int>, top: int, x: int)
    requires Grows(q, top) && top < x
    ensures Grows(q, x) && Grows(q + [x], x) && q + [] == q
  {
  }

  lemma RecordsGrowNext(q: seq<Judged>, top: int, j: Judged)
    requires RecordsGrow(q, top) && top < j.number
    ensures RecordsGrow(q, j.number) && RecordsGrow(q + [j], j.number)
  {
    hide Judge;
  }

  lemma {:induction false} FindUnique(records: seq<Judged>, j: Judged)
    requires j in records && exists top :: RecordsGrow(records, top)
    ensures Find(records, j.number) == Some(j)
  {
    var top :| RecordsGrow(records, top);
    if records[0] != j {
      var k :| 0 <= k < |records| && records[k] == j;
      assert records[0].number < records[k].number;
      assert records[1..][k - 1] == j;
      assert RecordsGrow(records[1..], top);
      FindUnique(records[1..], j);
    }
  }

  lemma OkMeansCleared(t: Context, issues: seq<Issue>, comments: seq<Comment>, preTag: bool, audit: Option<bool>)
    requires Increasing(issues) && Ok(Analyzed(t, issues, comments, |issues|), preTag, audit)
    ensures AllCleared(t, issues, comments, preTag, audit)
  {
    hide Judge, Analyzed;
    var n := |issues|;
    var a := Analyzed(t, issues, comments, n);
    ErrorsMean(t, issues, comments, n);
    ListsGrow(t, issues, comments, n);
    forall i | 0 <= i < n && !issues[i].pullRequest ensures Cleared(JudgedIn(t, issues[i], comments), preTag, audit) {
      var j := JudgedIn(t, issues[i], comments);
      if j.blocking {
        JudgeNumber(t, issues[i], CommentsOf(comments, issues[i].number));
        BlockingMeans(t, issues, comments, n, j.number);
        assert Lists(t, issues[i], comments, j.number, true);
        RecordsMean(t, issues, comments, n, j);
        FindUnique(a.issues, j);
      }
    }
  }

  lemma ClearedMeansOk(t: Context, issues: seq<Issue>, comments: seq<Comment>, preTag: bool, audit: Option<bool>)
    requires Increasing(issues) && AllCleared(t, issues, comments, preTag, audit)
    ensures Ok(Analyzed(t, issues, comments, |issues|), preTag, audit)
  {
    hide Judge, Analyzed;
    var n := |issues|;
    var a := Analyzed(t, issues, comments, n);
    ErrorsMean(t, issues, comments, n);
    ListsGrow(t, issues, comments, n);
    if a.blocking != [] {
      forall x | x in a.blocking ensures x == PENDING_TAG_ISSUE {
        BlockingMeans(t, issues, comments, n, x);
      }
      OneElement(a.blocking, PENDING_TAG_ISSUE);
      BlockingMeans(t, issues, comments, n, PENDING_TAG_ISSUE);
      var i :| 0 <= i < n && Lists(t, issues[i], comments, PENDING_TAG_ISSUE, true);
      RecordsMean(t, issues, comments, n, JudgedIn(t, issues[i], comments));
      FindUnique(a.issues, JudgedIn(t, issues[i], comments));
    }
  }

  lemma OneElement(q: seq<int>, x: int)
    requires q != [] && (forall e :: e in q ==> e == x) && forall i, j :: 0 <= i < j < |q| ==> q[i] < q[j]
    ensures q == [x]
  {
    assert q[0] in q && q[|q| - 1] in q;
  }

  /** The verdict on valid rows is ok exactly when every issue is acceptable. */
  lemma VerdictExactly(t: Context, issues: seq<Issue>, comments: seq<Comment>, preTag: bool, audit: Option<bool>)
    requires NumbersValid(issues)
    ensures Ok(Analyzed(t, Sort(issues), comments, |Sort(issues)|), preTag, audit) <==>
      forall issue :: issue in issues ==> Acceptable(t, issue, comments, preTag, audit)
  {
    hide Analyzed, Ok, Sort, Cleared, JudgedIn;
    var sorted := Sort(issues);
    SortKeeps(issues);
    forall issue | issue in issues && !issue.pullRequest
      ensures Cleared(JudgedIn(t, issue, comments), preTag, audit) <==> Acceptable(t, issue, comments, preTag, audit)
    {
      ClearedExactly(t, issue, comments, preTag, audit);
    }
    if Ok(Analyzed(t, sorted, comments, |sorted|), preTag, audit) {
      OkMeansCleared(t, sorted, comments, preTag, audit);
      forall issue | issue in issues ensures Acceptable(t, issue, comments, preTag, audit) {
        assert issue in sorted;
      }
    }
    if forall issue :: issue in issues ==> Acceptable(t, issue, comments, preTag, audit) {
      forall i | 0 <= i < |sorted| && !sorted[i].pullRequest ensures Cleared(JudgedIn(t, sorted[i], comments), preTag, audit) {
        assert sorted[i] in sorted;
      }
      ClearedMeansOk(t, sorted, comments, preTag, audit);
    }
  }

  /** The verdict of `capture`, when the rows are valid. */
  method Verdict(t: Context, issueRows: seq<Json>, commentRows: seq<Json>, preTag: bool, audit: Option<bool>)
    returns (r: Option<bool>)
    ensures r.Some? <==> RowsAccepted(t, issueRows, commentRows)
    ensures r.Some? ==>
      var issues, comments := IssuesOf(t.strip, issueRows), CommentRows(t.strip, commentRows);
      r.value <==> forall issue :: issue in issues ==> Acceptable(t, issue, comments, preTag, audit)
  {
    hide Acceptable, Analyzed, ExceptionApplies, CommentsValid, IssuesOf, CommentRows, AllIssuesValid, AllCommentsValid;
    var analysis, issues, comments := AnalyzeIssues(t, issueRows, commentRows);
    if analysis.None? {
      return None;
    }
    var a := analysis.value;
    var applied := PendingTagException(a, preTag, audit);
    var after := a.blocking;
    if applied {
      AppliedBlocking(a, preTag, audit);
      after := after[1..];
    }
    VerdictExactly(t, issues, comments, preTag, audit);
    AppliedEmpty(a, preTag, audit);
    r := Some(a.errors == [] && |after| == 0 && a.critical == []);
  }

  lemma AppliedBlocking(a: Analysis, preTag: bool, audit: Option<bool>)
    requires ExceptionApplies(a, preTag, audit)
    ensures a.blocking == [PENDING_TAG_ISSUE]
  {
  }

  lemma AppliedEmpty(a: Analysis, preTag: bool, audit: Option<bool>)
    ensures ExceptionApplies(a, preTag, audit) ==> |a.blocking| == 1
  {
  }

  /** Blocking and deferred P0s partition the open P0s. */
  lemma OpenP0sPartitioned(t: Context, issues: seq<Issue>, comments: seq<Comment>, issue: Issue)
    requires NumbersValid(issues) && issue in issues
    ensures var a := Analyzed(t, Sort(issues), comments, |Sort(issues)|);
      var n := issue.number;
      && !(n in a.blocking && n in a.deferred)
      && (n in a.blocking || n in a.deferred <==> !issue.pullRequest && issue.open && "p0" in Labels(t, issue))
  {
    hide Analyzed, Sort, Judge, Labels;
    var sorted := Sort(issues);
    SortKeeps(issues);
    BlockingMeans(t, sorted, comments, |sorted|, issue.number);
    var k :| 0 <= k < |sorted| && sorted[k] == issue;
    forall i | 0 <= i < |sorted| && i != k ensures sorted[i].number != issue.number {
      if i < k { assert sorted[i].number < sorted[k].number; } else { assert sorted[k].number < sorted[i].number; }
    }
    forall i | 0 <= i < |sorted| && i != k
      ensures !Lists(t, sorted[i], comments, issue.number, true) && !Lists(t, sorted[i], comments, issue.number, false)
    {
      JudgeNumber(t, sorted[i], CommentsOf(comments, sorted[i].number));
    }
    JudgeNumber(t, issue, CommentsOf(comments, issue.number));
    JudgeFlags(t, issue, CommentsOf(comments, issue.number));
  }

  lemma JudgeFlags(t: Context, issue: Issue, comments: seq<Comment>)
    ensures var j := Judge(t, issue, comments);
      j.open == issue.open && (j.p0 <==> "p0" in Labels(t, issue)) && (j.blocking ==> j.open && j.p0)
  {
    hide Labels, Matched, Confirmed;
  }

  // ----- the order of the rows does not matter

  lemma {:induction false} CommentsCounted(comments: seq<Comment>, n: int, c: Comment)
    ensures multiset(CommentsOf(comments, n))[c] == if c.issue == n then multiset(comments)[c] else 0
  {
    if comments != [] {
      var init, last := comments[..|comments| - 1], comments[|comments| - 1];
      assert comments == init + [last];
      CommentsCounted(init, n, c);
    }
  }

  lemma CommentsPermuted(comments: seq<Comment>, comments': seq<Comment>, n: int)
    requires multiset(comments) == multiset(comments')
    ensures multiset(CommentsOf(comments, n)) == multiset(CommentsOf(comments', n))
    ensures |CommentsOf(comments, n)| == |CommentsOf(comments', n)|
  {
    var a, b := CommentsOf(comments, n), CommentsOf(comments', n);
    forall c ensures multiset(a)[c] == multiset(b)[c] {
      CommentsCounted(comments, n, c);
      CommentsCounted(comments', n, c);
    }
    assert multiset(a) == multiset(b);
    assert |multiset(a)| == |a| && |multiset(b)| == |b|;
  }

  lemma ConfirmedPermuted(t: Context, a: seq<Comment>, b: seq<Comment>)
    requires multiset(a) == multiset(b) && Confirmed(t, a)
    ensures Confirmed(t, b)
  {
    hide Confirmation;
    var i :| 0 <= i < |a| && Confirmation(t, a[i]);
    assert a[i] in multiset(b);
    var j :| 0 <= j < |b| && b[j] == a[i];
  }

  lemma NumbersPermuted(issues: seq<Issue>, issues': seq<Issue>)
    requires multiset(issues) == multiset(issues') && NumbersValid(issues)
    ensures NumbersValid(issues')
  {
    assert Sorting.Distinct(Number, issues);
    Sorting.DistinctPermuted(Number, issues, issues');
    Sorting.SameMembers(issues, issues');
    forall i | 0 <= i < |issues'| ensures issues'[i].number > 0 {
      assert issues'[i] in issues;
    }
    forall i, j | 0 <= i < j < |issues'| ensures issues'[i].number != issues'[j].number {
      assert Number(issues'[i]) != Number(issues'[j]);
    }
  }

  lemma CommentsValidPermuted(issues: seq<Issue>, issues': seq<Issue>, comments: seq<Comment>, comments': seq<Comment>)
    requires multiset(issues) == multiset(issues') && multiset(comments) == multiset(comments')
    requires CommentsValid(issues, comments)
    ensures CommentsValid(issues', comments')
  {
    hide CommentsOf;
    forall i | 0 <= i < |comments'| ensures comments'[i].issue in Numbers(issues') {
      assert comments'[i] in multiset(comments);
      var k :| 0 <= k < |comments| && comments[k] == comments'[i];
      var x :| x in issues && x.number == comments'[i].issue;
      assert x in multiset(issues');
    }
    forall i | 0 <= i < |issues'| ensures issues'[i].comments == |CommentsOf(comments', issues'[i].number)| {
      assert issues'[i] in multiset(issues);
      var k :| 0 <= k < |issues| && issues[k] == issues'[i];
      CommentsPermuted(comments, comments', issues[k].number);
    }
  }

  lemma AcceptablePermuted(
      t: Context, issue: Issue, comments: seq<Comment>, comments': seq<Comment>, preTag: bool, audit: Option<bool>)
    requires multiset(comments) == multiset(comments') && Acceptable(t, issue, comments, preTag, audit)
    ensures Acceptable(t, issue, comments', preTag, audit)
  {
    hide Labels, SolelyClassified, Confirmed;
    CommentsPermuted(comments, comments', issue.number);
    var a, b := CommentsOf(comments, issue.number), CommentsOf(comments', issue.number);
    if Confirmed(t, a) { ConfirmedPermuted(t, a, b); }
  }

  /** Reordering issue rows or comment rows changes neither whether they are valid nor the verdict. */
  lemma VerdictIgnoresOrder(
      t: Context, issues: seq<Issue>, issues': seq<Issue>, comments: seq<Comment>, comments': seq<Comment>,
      preTag: bool, audit: Option<bool>)
    requires multiset(issues) == multiset(issues') && multiset(comments) == multiset(comments')
    requires RowsValid(issues, comments)
    ensures RowsValid(issues', comments')
    ensures Ok(Analyzed(t, Sort(issues), comments, |Sort(issues)|), preTag, audit)
        <==> Ok(Analyzed(t, Sort(issues'), comments', |Sort(issues')|), preTag, audit)
  {
    hide Acceptable, Analyzed, Ok, Sort, CommentsOf, NumbersValid, CommentsValid;
    NumbersPermuted(issues, issues');
    CommentsValidPermuted(issues, issues', comments, comments');
    VerdictExactly(t, issues, comments, preTag, audit);
    VerdictExactly(t, issues', comments', preTag, audit);
    forall x ensures x in issues <==> x in issues' {
      assert x in multiset(issues) <==> x in multiset(issues');
    }
    forall x | x in issues
      ensures Acceptable(t, x, comments, preTag, audit) <==> Acceptable(t, x, comments', preTag, audit)
    {
      if Acceptable(t, x, comments, preTag, audit) { AcceptablePermuted(t, x, comments, comments', preTag, audit); }
      if Acceptable(t, x, comments', preTag, audit) { AcceptablePermuted(t, x, comments', comments, preTag, audit); }
    }
  }
}
