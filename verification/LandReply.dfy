/** The land node's reply step: one reply in the review thread of each landed
    finding, one comment on the pull request for the rest, told apart from
    earlier attempts only by what the pull request shows. Attempts may stop
    anywhere and be repeated. */
module LandReply {
  import opened Text
  import opened Wrappers

  const SIGNATURE := "- culture-nodes (land node)"
  const THREADS_PAGE := 100

  datatype Comment = Comment(databaseId: Maybe<int>, body: string)
  datatype Thread = Thread(id: string, resolved: bool, comments: seq<Comment>)
  datatype Finding = Finding(id: string, threadId: string, commentId: Maybe<int>, source: string)

  /** What was landed and for which findings; `reply` and `summary` are the posts
      it makes, a reply with the id it is given. */
  datatype Landing = Landing(
    findings: seq<Finding>, sha: string, reply: Finding -> Comment, summary: seq<Finding> -> string)

  datatype Post = Reply(finding: nat) | Summary(findings: seq<nat>)

  /** The pull request, and what the land node has posted on it. */
  datatype Board = Board(threads: seq<Thread>, comments: seq<string>, log: seq<Post>)

  // ---- matching ------------------------------------------------------------

  /** The query fetches the first hundred comments of a thread and no more. */
  function Visible(t: Thread): seq<Comment> {
    if |t.comments| <= THREADS_PAGE then t.comments else t.comments[..THREADS_PAGE]
  }

  predicate Matches(f: Finding, t: Thread) {
    if f.threadId != "" then t.id == f.threadId
    else if f.commentId.Some? then exists c :: c in Visible(t) && c.databaseId == f.commentId
    else exists c :: c in Visible(t) && Contains(c.body, f.id)
  }

  /** The first thread that matches, or `|threads|`. */
  function Match(f: Finding, threads: seq<Thread>): (i: nat)
    ensures i <= |threads|
    ensures i < |threads| ==> Matches(f, threads[i])
    ensures forall j :: 0 <= j < i ==> !Matches(f, threads[j])
  {
    MatchFrom(f, threads, 0)
  }

  function MatchFrom(f: Finding, threads: seq<Thread>, start: nat): (i: nat)
    requires start <= |threads|
    ensures start <= i <= |threads|
    ensures i < |threads| ==> Matches(f, threads[i])
    ensures forall j :: start <= j < i ==> !Matches(f, threads[j])
    decreases |threads| - start
  {
    if start == |threads| || Matches(f, threads[start]) then start
    else MatchFrom(f, threads, start + 1)
  }

  /** The query shows the comment at `i`, and it is so. */
  ghost predicate ShowsId(t: Thread, i: nat, id: int) {
    i < |t.comments| && i < 100 && t.comments[i].databaseId == Some(id)
  }

  ghost predicate ShowsQuote(t: Thread, i: nat, id: string) {
    i < |t.comments| && i < 100 && exists a, b :: Surrounded(t.comments[i].body, a, id, b)
  }

  /** The thread a finding is for: by thread id alone if it has one, else by
      comment id alone if it has one, else by quotation. */
  ghost predicate IsFor(f: Finding, t: Thread) {
    && (f.threadId != "" ==> t.id == f.threadId)
    && (f.threadId == "" && f.commentId.Some? ==> exists i :: ShowsId(t, i, f.commentId.value))
    && (f.threadId == "" && f.commentId.None? ==> exists i :: ShowsQuote(t, i, f.id))
  }

  lemma {:induction false} VisibleExactly(t: Thread, c: Comment)
    ensures c in Visible(t) <==> exists i: nat :: i < |t.comments| && i < 100 && t.comments[i] == c
  {
    var seen := Visible(t);
    if i: nat :| i < |t.comments| && i < 100 && t.comments[i] == c {
      assert seen[i] == c;
    }
  }

  lemma {:induction false} MatchesExactly(f: Finding, t: Thread)
    ensures Matches(f, t) <==> IsFor(f, t)
  {
    forall c: Comment
      ensures c in Visible(t) <==> exists i: nat :: i < |t.comments| && i < 100 && t.comments[i] == c
      ensures Contains(c.body, f.id) <==> exists a, b :: Surrounded(c.body, a, f.id, b)
    {
      VisibleExactly(t, c);
      ContainsExactly(c.body, f.id);
    }
    forall i: nat | i < |t.comments| && i < 100 && Contains(t.comments[i].body, f.id) ensures ShowsQuote(t, i, f.id) {
    }
    forall i: nat | i < |t.comments| && i < 100 && t.comments[i].databaseId == f.commentId && f.commentId.Some?
      ensures ShowsId(t, i, f.commentId.value)
    {
    }
  }

  /** The finding's thread is the first one that is for it. */
  lemma {:induction false} MatchExactly(f: Finding, threads: seq<Thread>, m: nat)
    requires m <= |threads|
    ensures m == Match(f, threads) <==>
            (m < |threads| ==> IsFor(f, threads[m])) && forall j :: 0 <= j < m ==> !IsFor(f, threads[j])
  {
    forall j | 0 <= j < |threads| ensures Matches(f, threads[j]) <==> IsFor(f, threads[j]) {
      MatchesExactly(f, threads[j]);
    }
  }

  predicate IsLandNote(body: string, sha: string) {
    Contains(body, SIGNATURE) && Contains(body, sha)
  }

  predicate Noted(t: Thread, sha: string) {
    exists c :: c in Visible(t) && IsLandNote(c.body, sha)
  }

  predicate Anchored(t: Thread) {
    exists c :: c in Visible(t) && c.databaseId.Some?
  }

  /** The step replies to `f` on seeing these threads. */
  predicate Posts(f: Finding, threads: seq<Thread>, sha: string) {
    var m := Match(f, threads);
    m < |threads| && !Noted(threads[m], sha) && Anchored(threads[m])
  }

  // ---- what is posted ------------------------------------------------------

  function Short(sha: string): (short: string)
    ensures short <= sha && |short| == if |sha| < 12 then |sha| else 12
  {
    if |sha| <= 12 then sha else sha[..12]
  }

  function Decimal(n: nat): string {
    if n < 10 then ["0123456789"[n]] else Decimal(n / 10) + ["0123456789"[n % 10]]
  }

  /** The number that a row of digits stands for. */
  ghost function Number(digits: string): int {
    if digits == "" then 0 else 10 * Number(digits[..|digits| - 1]) + digits[|digits| - 1] as int - '0' as int
  }

  lemma {:induction false} DecimalReads(n: nat)
    ensures Number(Decimal(n)) == n
  {
    if n >= 10 {
      DecimalReads(n / 10);
      assert Decimal(n)[..|Decimal(n)| - 1] == Decimal(n / 10);
    }
  }

  function Joined(parts: seq<string>): string {
    if parts == [] then "" else parts[0] + Joined(parts[1..])
  }

  lemma {:induction false} JoinedContains(parts: seq<string>, i: nat)
    requires i < |parts|
    ensures Contains(Joined(parts), parts[i])
  {
    var rest := Joined(parts[1..]);
    if i == 0 {
      assert Joined(parts) == "" + parts[0] + rest;
      ContainsMiddle("", parts[0], rest);
    } else {
      JoinedContains(parts[1..], i - 1);
      assert Joined(parts) == parts[0] + rest + "";
      ContainsGrows(parts[0], rest, "", parts[i]);
    }
  }

  function Items(fs: seq<Finding>): string {
    if fs == [] then ""
    else Joined(["- `", fs[0].id, "` (", fs[0].source, ")", if |fs| > 1 then "\n" + Items(fs[1..]) else ""])
  }

  /** The two templates, filled in for a landing. */
  function ReplyBody(sha: string, workItem: string, landRun: string, f: Finding): string {
    Joined(["Landed in ", sha, " (`", Short(sha), "`) for finding `", f.id, "` (work item ", workItem,
            ", land run ", landRun, ").\n\n", SIGNATURE])
  }

  function SummaryBody(sha: string, workItem: string, landRun: string, fs: seq<Finding>): string {
    Joined(["Landed in ", sha, " (`", Short(sha), "`) for ", Decimal(|fs|), " finding(s) with no review thread:\n",
            Items(fs), "\n\n(work item ", workItem, ", land run ", landRun, ")\n\n", SIGNATURE])
  }

  function Templated(findings: seq<Finding>, sha: string, workItem: string, landRun: string,
      ids: Finding -> int): Landing {
    Landing(findings, sha, f => Comment(Some(ids(f)), ReplyBody(sha, workItem, landRun, f)),
            fs => SummaryBody(sha, workItem, landRun, fs))
  }

  /** Every post is one that a later attempt recognises. */
  ghost predicate Signed(s: Landing) {
    (forall f :: IsLandNote(s.reply(f).body, s.sha)) && forall fs :: IsLandNote(s.summary(fs), s.sha)
  }

  /** What a reply says: the commit, the finding, the work item and the run, and
      who it is from. */
  lemma {:induction false} ReplyNames(sha: string, workItem: string, landRun: string, f: Finding)
    ensures var body := ReplyBody(sha, workItem, landRun, f);
            && Contains(body, sha) && Contains(body, f.id) && Contains(body, workItem) && Contains(body, landRun)
            && Contains(body, SIGNATURE)
  {
    var parts := ["Landed in ", sha, " (`", Short(sha), "`) for finding `", f.id, "` (work item ", workItem,
                  ", land run ", landRun, ").\n\n", SIGNATURE];
    JoinedContains(parts, 1);
    JoinedContains(parts, 5);
    JoinedContains(parts, 7);
    JoinedContains(parts, 9);
    JoinedContains(parts, 11);
  }

  lemma {:induction false} ItemsName(fs: seq<Finding>, i: nat)
    requires i < |fs|
    ensures Contains(Items(fs), fs[i].id) && Contains(Items(fs), fs[i].source)
  {
    var rest := if |fs| > 1 then "\n" + Items(fs[1..]) else "";
    var parts := ["- `", fs[0].id, "` (", fs[0].source, ")", rest];
    if i == 0 {
      JoinedContains(parts, 1);
      JoinedContains(parts, 3);
    } else {
      ItemsName(fs[1..], i - 1);
      assert rest == "\n" + Items(fs[1..]) + "";
      ContainsGrows("\n", Items(fs[1..]), "", fs[i].id);
      ContainsGrows("\n", Items(fs[1..]), "", fs[i].source);
      JoinedContains(parts, 5);
      ContainsThrough(Items(fs), rest, fs[i].id);
      ContainsThrough(Items(fs), rest, fs[i].source);
    }
  }

  lemma {:induction false} ContainsThrough(whole: string, middle: string, part: string)
    requires Contains(whole, middle) && Contains(middle, part)
    ensures Contains(whole, part)
  {
    ContainsExactly(whole, middle);
    var a, b :| Surrounded(whole, a, middle, b);
    ContainsGrows(a, middle, b, part);
  }

  /** What the comment says: the commit, the number of findings and who it is from. */
  lemma {:induction false} SummaryNames(sha: string, workItem: string, landRun: string, fs: seq<Finding>)
    ensures var body := SummaryBody(sha, workItem, landRun, fs);
            && Contains(body, sha) && Contains(body, Decimal(|fs|)) && Contains(body, Items(fs))
            && Contains(body, workItem) && Contains(body, landRun) && Contains(body, SIGNATURE)
  {
    var parts := ["Landed in ", sha, " (`", Short(sha), "`) for ", Decimal(|fs|),
                  " finding(s) with no review thread:\n", Items(fs), "\n\n(work item ", workItem,
                  ", land run ", landRun, ")\n\n", SIGNATURE];
    JoinedContains(parts, 1);
    JoinedContains(parts, 5);
    JoinedContains(parts, 7);
    JoinedContains(parts, 9);
    JoinedContains(parts, 11);
    JoinedContains(parts, 13);
  }

  /** And every finding it is for, with its source. */
  lemma {:induction false} SummaryListsAll(sha: string, workItem: string, landRun: string, fs: seq<Finding>, i: nat)
    requires i < |fs|
    ensures var body := SummaryBody(sha, workItem, landRun, fs);
            Contains(body, fs[i].id) && Contains(body, fs[i].source)
  {
    SummaryNames(sha, workItem, landRun, fs);
    ItemsName(fs, i);
    ContainsThrough(SummaryBody(sha, workItem, landRun, fs), Items(fs), fs[i].id);
    ContainsThrough(SummaryBody(sha, workItem, landRun, fs), Items(fs), fs[i].source);
  }

  lemma {:induction false} TemplatesAreSigned(findings: seq<Finding>, sha: string, workItem: string,
      landRun: string, ids: Finding -> int)
    ensures Signed(Templated(findings, sha, workItem, landRun, ids))
  {
    var s := Templated(findings, sha, workItem, landRun, ids);
    forall f ensures IsLandNote(s.reply(f).body, sha) {
      ReplyNames(sha, workItem, landRun, f);
    }
    forall fs ensures IsLandNote(s.summary(fs), sha) {
      SummaryNames(sha, workItem, landRun, fs);
    }
  }

  // ---- one attempt ---------------------------------------------------------

  function Append(threads: seq<Thread>, m: nat, note: Comment): seq<Thread>
    requires m < |threads|
  {
    threads[m := threads[m].(comments := threads[m].comments + [note])]
  }

  /** Deal with finding `k`, as planned on the threads seen at the start. */
  function Handle(s: Landing, seen: seq<Thread>, b: Board, k: nat): Board
    requires k < |s.findings| && |seen| == |b.threads|
  {
    var f := s.findings[k];
    if Posts(f, seen, s.sha) then
      Board(Append(b.threads, Match(f, seen), s.reply(f)), b.comments, b.log + [Reply(k)])
    else b
  }

  /** The thread shows a note of the land node about this commit. */
  ghost predicate ShowsNote(t: Thread, i: nat, sha: string) {
    && i < |t.comments| && i < 100
    && (exists a, b :: Surrounded(t.comments[i].body, a, "- culture-nodes (land node)", b))
    && exists a, b :: Surrounded(t.comments[i].body, a, sha, b)
  }

  ghost predicate Replyable(f: Finding, threads: seq<Thread>, sha: string, m: nat) {
    && m < |threads| && IsFor(f, threads[m]) && (forall j :: 0 <= j < m ==> !IsFor(f, threads[j]))
    && (forall i :: !ShowsNote(threads[m], i, sha)) && exists i, id :: ShowsId(threads[m], i, id)
  }

  lemma {:induction false} NotedExactly(t: Thread, sha: string)
    ensures Noted(t, sha) <==> exists i :: ShowsNote(t, i, sha)
  {
    forall c: Comment
      ensures c in Visible(t) <==> exists i: nat :: i < |t.comments| && i < 100 && t.comments[i] == c
      ensures IsLandNote(c.body, sha) <==>
              && (exists a, b :: Surrounded(c.body, a, "- culture-nodes (land node)", b))
              && exists a, b :: Surrounded(c.body, a, sha, b)
    {
      VisibleExactly(t, c);
      ContainsExactly(c.body, SIGNATURE);
      ContainsExactly(c.body, sha);
    }
    forall i: nat | i < |t.comments| && i < 100 && IsLandNote(t.comments[i].body, sha) ensures ShowsNote(t, i, sha) {
    }
  }

  lemma {:induction false} AnchoredExactly(t: Thread)
    ensures Anchored(t) <==> exists i, id :: ShowsId(t, i, id)
  {
    forall c: Comment
      ensures c in Visible(t) <==> exists i: nat :: i < |t.comments| && i < 100 && t.comments[i] == c
    {
      VisibleExactly(t, c);
    }
    forall i: nat | i < |t.comments| && i < 100 && t.comments[i].databaseId.Some?
      ensures ShowsId(t, i, t.comments[i].databaseId.value)
    {
    }
  }

  lemma {:induction false} PostsExactly(f: Finding, threads: seq<Thread>, sha: string, m: nat)
    ensures Replyable(f, threads, sha, m) <==> Posts(f, threads, sha) && m == Match(f, threads)
  {
    if m < |threads| {
      MatchExactly(f, threads, m);
      NotedExactly(threads[m], sha);
      AnchoredExactly(threads[m]);
    }
  }

  /** Said without the plan: the reply goes to the first thread that is for the
      finding, if that thread shows no note and something to reply to, and nothing
      else changes. */
  lemma {:induction false} HandleExactly(s: Landing, seen: seq<Thread>, b: Board, k: nat)
    requires k < |s.findings| && |seen| == |b.threads|
    ensures forall m: nat :: Replyable(s.findings[k], seen, s.sha, m) ==>
              && m < |b.threads|
              && Handle(s, seen, b, k) ==
                 Board(b.threads[m := b.threads[m].(comments := b.threads[m].comments + [s.reply(s.findings[k])])],
                       b.comments, b.log + [Reply(k)])
    ensures (forall m: nat :: !Replyable(s.findings[k], seen, s.sha, m)) ==> Handle(s, seen, b, k) == b
  {
    var f := s.findings[k];
    PostsExactly(f, seen, s.sha, Match(f, seen));
    forall m: nat | Replyable(f, seen, s.sha, m) ensures Posts(f, seen, s.sha) && m == Match(f, seen) {
      PostsExactly(f, seen, s.sha, m);
    }
  }

  /** The first `n` findings dealt with. */
  function Prefix(s: Landing, b: Board, n: nat): (b': Board)
    requires n <= |s.findings|
    ensures |b'.threads| == |b.threads|
  {
    if n == 0 then b else Handle(s, b.threads, Prefix(s, b, n - 1), n - 1)
  }

  function Unthreaded(s: Landing, seen: seq<Thread>, n: nat): (ks: seq<nat>)
    requires n <= |s.findings|
    ensures forall i :: 0 <= i < |ks| ==> ks[i] < n
    ensures forall i, j :: 0 <= i < j < |ks| ==> ks[i] < ks[j]
  {
    if n == 0 then []
    else
      var rest := Unthreaded(s, seen, n - 1);
      if Match(s.findings[n - 1], seen) == |seen| then rest + [n - 1] else rest
  }

  lemma {:induction false} UnthreadedAre(s: Landing, seen: seq<Thread>, n: nat, k: nat)
    requires n <= |s.findings|
    ensures k in Unthreaded(s, seen, n) <==> k < n && Match(s.findings[k], seen) == |seen|
  {
    if n > 0 {
      UnthreadedAre(s, seen, n - 1, k);
    }
  }

  function Pick(findings: seq<Finding>, ks: seq<nat>): (fs: seq<Finding>)
    requires forall i :: 0 <= i < |ks| ==> ks[i] < |findings|
    ensures |fs| == |ks| && forall i :: 0 <= i < |ks| ==> fs[i] == findings[ks[i]]
  {
    seq(|ks|, i requires 0 <= i < |ks| => findings[ks[i]])
  }

  predicate CommentNoted(s: Landing, b: Board) {
    exists c :: c in b.comments && IsLandNote(c, s.sha)
  }

  function Finish(s: Landing, seen: seq<Thread>, b: Board): Board {
    var ks := Unthreaded(s, seen, |s.findings|);
    if ks == [] || CommentNoted(s, b) then b
    else b.(comments := b.comments + [s.summary(Pick(s.findings, ks))], log := b.log + [Summary(ks)])
  }

  ghost predicate Threadless(f: Finding, threads: seq<Thread>) {
    forall j :: 0 <= j < |threads| ==> !IsFor(f, threads[j])
  }

  /** The comment is for exactly the findings with no thread, in order, and is made
      unless there is none or some comment is a note already. */
  lemma {:induction false} FinishExactly(s: Landing, seen: seq<Thread>, b: Board) returns (ks: seq<nat>)
    ensures forall i :: 0 <= i < |ks| ==> ks[i] < |s.findings|
    ensures forall k: nat :: k in ks <==> k < |s.findings| && Threadless(s.findings[k], seen)
    ensures forall i, j :: 0 <= i < j < |ks| ==> ks[i] < ks[j]
    ensures Finish(s, seen, b) ==
            if ks == [] || CommentNoted(s, b) then b
            else b.(comments := b.comments + [s.summary(Pick(s.findings, ks))], log := b.log + [Summary(ks)])
  {
    ks := Unthreaded(s, seen, |s.findings|);
    forall k: nat ensures k in ks <==> k < |s.findings| && Threadless(s.findings[k], seen) {
      UnthreadedAre(s, seen, |s.findings|, k);
      if k < |s.findings| {
        MatchExactly(s.findings[k], seen, |seen|);
      }
    }
  }

  /** An attempt that stops after `n` findings; one more is the comment. */
  function Attempt(s: Landing, b: Board, n: nat): Board
    requires n <= |s.findings| + 1
  {
    if n <= |s.findings| then Prefix(s, b, n)
    else Finish(s, b.threads, Prefix(s, b, |s.findings|))
  }

  ghost predicate Stops(s: Landing, ns: seq<nat>) {
    forall i :: 0 <= i < |ns| ==> ns[i] <= |s.findings| + 1
  }

  /** Any number of attempts, one after another. */
  ghost function Attempts(s: Landing, b: Board, ns: seq<nat>): Board
    requires Stops(s, ns)
  {
    if ns == [] then b
    else Attempt(s, Attempts(s, b, ns[..|ns| - 1]), ns[|ns| - 1])
  }

  // ---- what is to be proved ------------------------------------------------

  predicate Names(p: Post, k: nat) {
    match p
    case Reply(j) => j == k
    case Summary(ks) => k in ks
  }

  function Answers(log: seq<Post>, k: nat): nat {
    if log == [] then 0
    else Answers(log[..|log| - 1], k) + if Names(log[|log| - 1], k) then 1 else 0
  }

  /** The finding's thread already has a hundred comments, with no note among
      them and something to reply to. */
  predicate Unseen(f: Finding, threads: seq<Thread>, sha: string) {
    var m := Match(f, threads);
    m < |threads| && |threads[m].comments| >= THREADS_PAGE && !Noted(threads[m], sha) && Anchored(threads[m])
  }
}
