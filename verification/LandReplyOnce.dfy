/** No finding is answered twice, exactly when the query can see the node's own
    reply in the finding's thread. */
module LandReplyOnce {
  import opened Text
  import opened LandReply

  // ---- threads that only gain land notes -----------------------------------

  ghost predicate Gained(sha: string, t: Thread, t': Thread) {
    && t'.id == t.id && t.comments <= t'.comments
    && forall i :: |t.comments| <= i < |t'.comments| ==> IsLandNote(t'.comments[i].body, sha)
  }

  ghost predicate Extends(sha: string, a: seq<Thread>, b: seq<Thread>) {
    |a| == |b| && forall i :: 0 <= i < |a| ==> Gained(sha, a[i], b[i])
  }

  /** What was visible stays, and what becomes visible is a note. */
  lemma {:induction false} GainedVisible(sha: string, t: Thread, t': Thread)
    requires Gained(sha, t, t')
    ensures Visible(t) <= Visible(t')
    ensures Noted(t', sha) || Visible(t') == Visible(t)
    ensures Noted(t, sha) ==> Noted(t', sha)
    ensures |t.comments| < THREADS_PAGE && t'.comments != t.comments ==> Noted(t', sha)
  {
    if Noted(t, sha) {
      var c :| c in Visible(t) && IsLandNote(c.body, sha);
      assert c in Visible(t');
    } else if |t.comments| < THREADS_PAGE && |t.comments| < |t'.comments| {
      assert t'.comments[|t.comments|] in Visible(t');
    } else {
      assert Visible(t') == Visible(t);
    }
  }

  /** The node's own notes can draw a finding to another thread, but only to one
      that shows a note. */
  lemma {:induction false} MatchMovesToNoted(sha: string, f: Finding, a: seq<Thread>, b: seq<Thread>)
    requires Extends(sha, a, b)
    ensures Match(f, b) <= Match(f, a)
    ensures Match(f, b) == Match(f, a) || Noted(b[Match(f, b)], sha)
  {
  }

  /** A finding the step has nothing to post for: its thread, if any, shows a note. */
  ghost predicate Settled(sha: string, f: Finding, threads: seq<Thread>) {
    var m := Match(f, threads);
    m < |threads| ==> Noted(threads[m], sha)
  }

  /** A thread to be replied to is short enough for the reply to show. */
  lemma {:induction false} PostsAreShort(sha: string, f: Finding, orig: seq<Thread>, seen: seq<Thread>)
    requires Extends(sha, orig, seen) && Posts(f, seen, sha) && !Unseen(f, orig, sha)
    ensures |seen[Match(f, seen)].comments| < THREADS_PAGE
  {
    MatchMovesToNoted(sha, f, orig, seen);
    var m := Match(f, seen);
    GainedVisible(sha, orig[m], seen[m]);
  }

  /** After the reply the finding is settled, though others may have been posted
      since the threads were read. */
  lemma {:induction false} PostSettles(sha: string, f: Finding, orig: seq<Thread>, seen: seq<Thread>,
      now: seq<Thread>, note: Comment)
    requires Extends(sha, orig, seen) && Extends(sha, seen, now) && Posts(f, seen, sha) && !Unseen(f, orig, sha)
    requires IsLandNote(note.body, sha)
    ensures Settled(sha, f, Append(now, Match(f, seen), note))
  {
    var m := Match(f, seen);
    var after := Append(now, m, note);
    PostsAreShort(sha, f, orig, seen);
    MatchMovesToNoted(sha, f, seen, after);
    assert Gained(sha, seen[m], now[m]);
    GainedVisible(sha, seen[m], after[m]);
  }

  // ---- one attempt ---------------------------------------------------------

  ghost predicate Replied(log: seq<Post>, k: nat) {
    Reply(k) in log
  }

  /** Between attempts, about finding `k`: no answer yet, or one and then the
      pull request shows it; a finding replied to has a thread, and a comment
      that was posted is there. */
  ghost predicate Once(s: Landing, orig: seq<Thread>, b: Board, k: nat)
    requires k < |s.findings|
  {
    var f := s.findings[k];
    && (Replied(b.log, k) ==> Match(f, b.threads) < |b.threads|)
    && (!Unseen(f, orig, s.sha) ==> Answers(b.log, k) <= 1)
    && (!Unseen(f, orig, s.sha) && Answers(b.log, k) > 0 ==> Settled(s.sha, f, b.threads))
  }

  ghost predicate Inv(s: Landing, orig: seq<Thread>, b: Board) {
    && Extends(s.sha, orig, b.threads)
    && (forall p :: p in b.log && p.Summary? ==> CommentNoted(s, b))
    && forall k :: 0 <= k < |s.findings| ==> Once(s, orig, b, k)
  }

  lemma {:induction false} AnswersOneMore(log: seq<Post>, p: Post, k: nat)
    ensures Answers(log + [p], k) == Answers(log, k) + if Names(p, k) then 1 else 0
  {
  }

  lemma {:induction false} AnsweredHow(log: seq<Post>, k: nat)
    requires Answers(log, k) > 0
    ensures Replied(log, k) || exists p :: p in log && p.Summary?
  {
    var last := log[|log| - 1];
    if !Names(last, k) {
      AnsweredHow(log[..|log| - 1], k);
    }
  }

  /** In the middle of an attempt that began at `b0`: the findings dealt with
      and those still to come. */
  ghost predicate Midway(s: Landing, orig: seq<Thread>, b0: Board, n: nat, b: Board)
    requires n <= |s.findings|
  {
    && Inv(s, orig, b) && Extends(s.sha, b0.threads, b.threads) && b.comments == b0.comments
    && b0.log <= b.log
    && (forall k :: n <= k < |s.findings| ==> Answers(b.log, k) == Answers(b0.log, k))
    && (forall p :: p in b.log && p !in b0.log ==> p.Reply? && p.finding < n && Posts(s.findings[p.finding],
        b0.threads, s.sha))
  }

  lemma {:induction false} OnceStays(s: Landing, orig: seq<Thread>, b: Board, b': Board, p: Post, k: nat)
    requires k < |s.findings| && Extends(s.sha, orig, b.threads) && Once(s, orig, b, k)
    requires Extends(s.sha, b.threads, b'.threads) && b'.log == b.log + [p] && !Names(p, k)
    ensures Once(s, orig, b', k)
  {
    var f := s.findings[k];
    AnswersOneMore(b.log, p, k);
    MatchMovesToNoted(s.sha, f, b.threads, b'.threads);
  }

  lemma {:induction false} HandleExtends(s: Landing, b0: Board, b: Board, n: nat)
    requires Signed(s)
    requires n < |s.findings| && Extends(s.sha, b0.threads, b.threads)
    ensures Extends(s.sha, b.threads, Handle(s, b0.threads, b, n).threads)
    ensures Extends(s.sha, b0.threads, Handle(s, b0.threads, b, n).threads)
  {
  }

  lemma {:induction false} ReplyKeepsInv(s: Landing, orig: seq<Thread>, b0: Board, n: nat, b: Board)
    requires Signed(s) && Inv(s, orig, b0)
    requires n < |s.findings| && Midway(s, orig, b0, n, b)
    requires Posts(s.findings[n], b0.threads, s.sha)
    ensures Inv(s, orig, Handle(s, b0.threads, b, n))
  {
    var b' := Handle(s, b0.threads, b, n);
    HandleExtends(s, b0, b, n);
    forall k | 0 <= k < |s.findings| ensures Once(s, orig, b', k) {
      if k != n {
        OnceStays(s, orig, b, b', Reply(n), k);
      } else {
        ReplyIsOnce(s, orig, b0, n, b);
      }
    }
  }

  /** Dealing with one finding keeps every finding at one answer. */
  lemma {:induction false} HandleKeeps(s: Landing, orig: seq<Thread>, b0: Board, n: nat, n': nat, b: Board, b': Board)
    requires Signed(s) && Inv(s, orig, b0)
    requires n' == n + 1 <= |s.findings| && Midway(s, orig, b0, n, b)
    requires b' == Handle(s, b0.threads, b, n)
    ensures Midway(s, orig, b0, n', b')
  {
    HandleExtends(s, b0, b, n);
    if Posts(s.findings[n], b0.threads, s.sha) {
      ReplyKeepsInv(s, orig, b0, n, b);
      forall k | n < k < |s.findings| ensures Answers(b'.log, k) == Answers(b0.log, k) {
        AnswersOneMore(b.log, Reply(n), k);
      }
    }
  }

  lemma {:induction false} ReplyIsOnce(s: Landing, orig: seq<Thread>, b0: Board, n: nat, b: Board)
    requires Signed(s) && Inv(s, orig, b0)
    requires n < |s.findings| && Midway(s, orig, b0, n, b)
    requires Posts(s.findings[n], b0.threads, s.sha)
    ensures Once(s, orig, Handle(s, b0.threads, b, n), n)
  {
    var f := s.findings[n];
    var b' := Handle(s, b0.threads, b, n);
    AnswersOneMore(b.log, Reply(n), n);
    assert Once(s, orig, b0, n);
    MatchMovesToNoted(s.sha, f, b0.threads, b'.threads);
    if !Unseen(f, orig, s.sha) {
      PostSettles(s.sha, f, orig, b0.threads, b.threads, s.reply(f));
    }
  }

  lemma {:induction false} PrefixKeeps(s: Landing, orig: seq<Thread>, b0: Board, n: nat, b: Board)
    requires Signed(s) && n <= |s.findings| && Inv(s, orig, b0) && b == Prefix(s, b0, n)
    ensures Midway(s, orig, b0, n, b)
  {
    if n == 0 {
      assert b == b0;
    } else {
      var before := Prefix(s, b0, n - 1);
      PrefixKeeps(s, orig, b0, n - 1, before);
      HandleKeeps(s, orig, b0, n - 1, n, before, b);
    }
  }

  /** A finding the comment is for had no answer before. */
  lemma {:induction false} UnthreadedIsUnanswered(s: Landing, orig: seq<Thread>, b0: Board, b: Board, k: nat)
    requires Signed(s) && Inv(s, orig, b0)
    requires Midway(s, orig, b0, |s.findings|, b) && !CommentNoted(s, b)
    requires k < |s.findings| && Match(s.findings[k], b0.threads) == |b0.threads|
    ensures Answers(b.log, k) == 0
  {
    assert Once(s, orig, b0, k);
    if Answers(b.log, k) > 0 {
      AnsweredHow(b.log, k);
    }
  }

  lemma {:induction false} SummaryIsOnce(s: Landing, orig: seq<Thread>, b0: Board, b: Board, ks: seq<nat>,
      b': Board, k: nat)
    requires Signed(s) && Inv(s, orig, b0)
    requires Midway(s, orig, b0, |s.findings|, b) && !CommentNoted(s, b)
    requires k < |s.findings| && (k in ks ==> Match(s.findings[k], b0.threads) == |b0.threads|)
    requires b'.threads == b.threads && b'.log == b.log + [Summary(ks)]
    ensures Once(s, orig, b', k)
  {
    AnswersOneMore(b.log, Summary(ks), k);
    assert Once(s, orig, b, k);
    if k in ks {
      UnthreadedIsUnanswered(s, orig, b0, b, k);
      MatchMovesToNoted(s.sha, s.findings[k], b0.threads, b.threads);
    }
  }

  lemma {:induction false} FinishKeeps(s: Landing, orig: seq<Thread>, b0: Board, b: Board)
    requires Signed(s) && Inv(s, orig, b0)
    requires Midway(s, orig, b0, |s.findings|, b)
    ensures Inv(s, orig, Finish(s, b0.threads, b))
  {
    var ks := Unthreaded(s, b0.threads, |s.findings|);
    var b' := Finish(s, b0.threads, b);
    if b' != b {
      assert s.summary(Pick(s.findings, ks)) in b'.comments;
      forall k | 0 <= k < |s.findings| ensures Once(s, orig, b', k) {
        UnthreadedAre(s, b0.threads, |s.findings|, k);
        SummaryIsOnce(s, orig, b0, b, ks, b', k);
      }
    }
  }

  lemma {:induction false} AttemptKeeps(s: Landing, orig: seq<Thread>, b: Board, n: nat)
    requires Signed(s)
    requires n <= |s.findings| + 1 && Inv(s, orig, b)
    ensures Inv(s, orig, Attempt(s, b, n))
  {
    if n <= |s.findings| {
      PrefixKeeps(s, orig, b, n, Prefix(s, b, n));
    } else {
      PrefixKeeps(s, orig, b, |s.findings|, Prefix(s, b, |s.findings|));
      FinishKeeps(s, orig, b, Prefix(s, b, |s.findings|));
    }
  }

  lemma {:induction false} AttemptsKeep(s: Landing, b: Board, ns: seq<nat>)
    requires Signed(s)
    requires Stops(s, ns) && b.log == []
    ensures Inv(s, b.threads, Attempts(s, b, ns))
  {
    if ns != [] {
      AttemptsKeep(s, b, ns[..|ns| - 1]);
      AttemptKeeps(s, b.threads, Attempts(s, b, ns[..|ns| - 1]), ns[|ns| - 1]);
    }
  }

  // ---- the results ---------------------------------------------------------

  /** Among any findings, and however the attempts stop, `f` gets one answer at most. */
  ghost predicate AtMostOnce(f: Finding, sha: string, threads: seq<Thread>) {
    forall s: Landing, comments: seq<string>, ns: seq<nat>, k: nat ::
      Signed(s) && s.sha == sha && k < |s.findings| && s.findings[k] == f && Stops(s, ns) ==>
      Answers(Attempts(s, Board(threads, comments, []), ns).log, k) <= 1
  }

  /** The reply does not show, and the next attempt is where this one was. */
  lemma {:induction false} UnseenStays(s: Landing, b: Board)
    requires |s.findings| == 1 && Unseen(s.findings[0], b.threads, s.sha)
    ensures var b' := Attempt(s, b, 1);
            b'.log == b.log + [Reply(0)] && Unseen(s.findings[0], b'.threads, s.sha)
  {
    var f := s.findings[0];
    var m := Match(f, b.threads);
    assert Prefix(s, b, 0) == b;
    var b' := Handle(s, b.threads, b, 0);
    assert forall i :: 0 <= i < m ==> b'.threads[i] == b.threads[i];
    assert Visible(b'.threads[m]) == Visible(b.threads[m]);
    assert Match(f, b'.threads) == m;
  }

  lemma {:induction false} UnseenIsRepliedTwice(s: Landing, b: Board)
    requires |s.findings| == 1 && b.log == [] && Unseen(s.findings[0], b.threads, s.sha)
    ensures Answers(Attempts(s, b, [1, 1]).log, 0) == 2
  {
    assert [1, 1][..1] == [1] && [1][..0] == [];
    assert Attempts(s, b, []) == b;
    UnseenStays(s, b);
    UnseenStays(s, Attempts(s, b, [1]));
    AnswersOneMore([], Reply(0), 0);
    AnswersOneMore([Reply(0)], Reply(0), 0);
  }

  /** Over any number of stopped and repeated attempts a finding is answered at
      most once, exactly when its thread leaves room for the reply to be seen. */
  lemma {:induction false} AtMostOnceExactly(f: Finding, sha: string, threads: seq<Thread>)
    ensures AtMostOnce(f, sha, threads) <==> !Unseen(f, threads, sha)
  {
    if Unseen(f, threads, sha) {
      var s := Templated([f], sha, "", "", g => 0);
      TemplatesAreSigned([f], sha, "", "", g => 0);
      UnseenIsRepliedTwice(s, Board(threads, [], []));
      assert s.findings[0] == f && Stops(s, [1, 1]);
    } else {
      forall s: Landing, comments: seq<string>, ns: seq<nat>, k: nat
        | Signed(s) && s.sha == sha && k < |s.findings| && s.findings[k] == f && Stops(s, ns)
        ensures Answers(Attempts(s, Board(threads, comments, []), ns).log, k) <= 1
      {
        AttemptsKeep(s, Board(threads, comments, []), ns);
        assert Once(s, threads, Attempts(s, Board(threads, comments, []), ns), k);
      }
    }
  }

  // ---- repeating a completed step ------------------------------------------

  ghost predicate AllQuiet(s: Landing, threads: seq<Thread>) {
    forall k :: 0 <= k < |s.findings| ==> !Posts(s.findings[k], threads, s.sha)
  }

  ghost predicate NothingLeft(s: Landing, b: Board) {
    && AllQuiet(s, b.threads)
    && (Unthreaded(s, b.threads, |s.findings|) != [] ==> CommentNoted(s, b))
  }

  lemma {:induction false} NothingLeftPrefix(s: Landing, b: Board, n: nat)
    requires n <= |s.findings| && AllQuiet(s, b.threads)
    ensures Prefix(s, b, n) == b
  {
    if n > 0 {
      NothingLeftPrefix(s, b, n - 1);
      assert Handle(s, b.threads, b, n - 1) == b;
    }
  }

  /** Whatever the step looked at, afterwards there is nothing to post. */
  lemma {:induction false} HandledIsQuiet(s: Landing, orig: seq<Thread>, b0: Board, n: nat, b: Board, k: nat)
    requires Signed(s) && Inv(s, orig, b0)
    requires k < n <= |s.findings| && Midway(s, orig, b0, n, b)
    requires !Posts(s.findings[k], b0.threads, s.sha) || Replied(b.log, k)
    requires !Unseen(s.findings[k], orig, s.sha)
    ensures !Posts(s.findings[k], b.threads, s.sha)
  {
    var f := s.findings[k];
    MatchMovesToNoted(s.sha, f, b0.threads, b.threads);
    assert Once(s, orig, b, k);
    if Replied(b.log, k) {
      RepliedIsAnswered(b.log, k);
    } else {
      var m := Match(f, b.threads);
      if m < |b.threads| {
        GainedVisible(s.sha, b0.threads[m], b.threads[m]);
      }
    }
  }

  lemma {:induction false} RepliedIsAnswered(log: seq<Post>, k: nat)
    requires Replied(log, k)
    ensures Answers(log, k) > 0
  {
    if log[|log| - 1] != Reply(k) {
      RepliedIsAnswered(log[..|log| - 1], k);
    }
  }

  lemma {:induction false} PrefixReplies(s: Landing, b0: Board, n: nat, k: nat)
    requires k < n <= |s.findings| && Posts(s.findings[k], b0.threads, s.sha)
    ensures Replied(Prefix(s, b0, n).log, k)
  {
    if k < n - 1 {
      PrefixReplies(s, b0, n - 1, k);
    }
  }

  /** After a completed step, if every reply can be seen, there is nothing left to do. */
  lemma {:induction false} CompletedLeavesNothing(s: Landing, orig: seq<Thread>, b0: Board)
    requires Signed(s)
    requires Inv(s, orig, b0)
    requires forall k :: 0 <= k < |s.findings| ==> !Unseen(s.findings[k], orig, s.sha)
    ensures NothingLeft(s, Attempt(s, b0, |s.findings| + 1))
  {
    var n := |s.findings|;
    var b := Prefix(s, b0, n);
    PrefixKeeps(s, orig, b0, n, b);
    var b' := Finish(s, b0.threads, b);
    forall k | 0 <= k < n ensures !Posts(s.findings[k], b'.threads, s.sha) {
      if Posts(s.findings[k], b0.threads, s.sha) {
        PrefixReplies(s, b0, n, k);
      }
      HandledIsQuiet(s, orig, b0, n, b, k);
    }
    if Unthreaded(s, b0.threads, n) == [] {
      StillUnthreaded(s, b0, b);
    }
  }

  lemma {:induction false} StillUnthreaded(s: Landing, b0: Board, b: Board)
    requires Extends(s.sha, b0.threads, b.threads) && Unthreaded(s, b0.threads, |s.findings|) == []
    ensures Unthreaded(s, b.threads, |s.findings|) == []
  {
    var ks := Unthreaded(s, b.threads, |s.findings|);
    if ks != [] {
      var k := ks[0];
      assert k in ks && k !in Unthreaded(s, b0.threads, |s.findings|);
      UnthreadedAre(s, b.threads, |s.findings|, k);
      UnthreadedAre(s, b0.threads, |s.findings|, k);
      MatchMovesToNoted(s.sha, s.findings[k], b0.threads, b.threads);
    }
  }

  /** However the earlier attempts stopped, a repeat of a completed step posts
      nothing and changes nothing. */
  lemma {:induction false} RepeatPostsNothing(s: Landing, b: Board, ns: seq<nat>, n: nat)
    requires Signed(s)
    requires b.log == [] && Stops(s, ns) && n <= |s.findings| + 1
    requires forall k :: 0 <= k < |s.findings| ==> !Unseen(s.findings[k], b.threads, s.sha)
    ensures var done := Attempt(s, Attempts(s, b, ns), |s.findings| + 1);
            Attempt(s, done, n) == done
  {
    AttemptsKeep(s, b, ns);
    var b0 := Attempts(s, b, ns);
    CompletedLeavesNothing(s, b.threads, b0);
    var done := Attempt(s, b0, |s.findings| + 1);
    NothingLeftPrefix(s, done, if n <= |s.findings| then n else |s.findings|);
  }
}
